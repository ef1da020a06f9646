/** Unbiased draws by rejection, and the Fisher-Yates shuffle built on them. */
module Shuffle {
  import opened Graphs

  /** The number of values of the generator. */
  const RANGE: nat := 0x1_0000_0000

  /** The raw outputs of the generator, from some point on. */
  type Stream = nat -> nat

  /** The largest multiple of bound within the generator's range. */
  function Limit(bound: nat): nat
    requires bound > 0
  {
    RANGE - RANGE % bound
  }

  ghost predicate Accepts(raw: Stream, pos: nat, bound: nat)
    requires bound > 0
  {
    exists k :: k >= pos && raw(k) < Limit(bound)
  }

  /** next is just past the first raw output from pos on that is accepted. */
  ghost predicate FirstAccepted(raw: Stream, pos: nat, bound: nat, next: nat)
    requires bound > 0
  {
    pos < next && raw(next - 1) < Limit(bound) && forall k :: pos <= k < next - 1 ==> raw(k) >= Limit(bound)
  }

  /** One draw below bound from pos on: it ends at next and yields drawn. */
  ghost predicate Draws(raw: Stream, pos: nat, bound: nat, next: nat, drawn: nat)
    requires bound > 0
  {
    FirstAccepted(raw, pos, bound, next) && drawn == raw(next - 1) % bound
  }

  method DeterministicDraw(raw: Stream, pos: nat, bound: nat) returns (drawn: nat, next: nat)
    requires bound > 0 ==> Accepts(raw, pos, bound)
    ensures bound == 0 ==> drawn == 0 && next == pos
    ensures bound > 0 ==> Draws(raw, pos, bound, next, drawn) && drawn < bound && next > pos
  {
    if bound == 0 { return 0, pos; }
    var limit := Limit(bound);
    ghost var stop :| stop >= pos && raw(stop) < limit;
    var r := raw(pos);
    next := pos + 1;
    while r >= limit
      invariant pos < next <= stop + 1 && r == raw(next - 1)
      invariant forall k :: pos <= k < next - 1 ==> raw(k) >= limit
      decreases stop + 1 - next
    {
      r := raw(next);
      next := next + 1;
    }
    drawn := r % bound;
  }

  // ------------------------------------------------------------- no bias

  /** The numbers below m that leave the remainder r. */
  ghost function WithRemainder(m: nat, bound: nat, r: nat): set<nat>
    requires bound > 0
  {
    set x: nat | x < m && x % bound == r
  }

  lemma DivModUnique(x: nat, bound: nat, q: nat, r: nat)
    requires r < bound && x == q * bound + r
    ensures x % bound == r && x / bound == q
  {
    var q0, r0 := x / bound, x % bound;
    assert x == q0 * bound + r0;
    if q < q0 { Multiple(q0 - q, bound); }
    if q0 < q { Multiple(q - q0, bound); }
    assert (q - q0) * bound == r0 - r;
  }

  lemma Multiple(n: nat, bound: nat)
    requires n > 0
    ensures n * bound >= bound
  {
  }

  /** One more stretch of bound numbers holds one more with the remainder. */
  lemma OneMoreShare(m: nat, bound: nat, r: nat, q: nat)
    requires r < bound && m == q * bound
    ensures WithRemainder(m + bound, bound, r) == WithRemainder(m, bound, r) + {m + r} && m + r !in WithRemainder(m, bound, r)
  {
    forall y: nat
      ensures y in WithRemainder(m + bound, bound, r) <==> y in WithRemainder(m, bound, r) || y == m + r
    {
      if m <= y < m + bound { DivModUnique(y, bound, q, y - m); }
    }
  }

  lemma OneLess(q: nat, bound: nat, m: nat)
    requires q > 0 && m == q * bound
    ensures m - bound == (q - 1) * bound >= 0
  {
  }

  lemma NoShare(bound: nat, r: nat)
    requires r < bound
    ensures |WithRemainder(0, bound, r)| == 0
  {
    assert WithRemainder(0, bound, r) == {};
  }

  lemma {:induction false} EqualShares(q: nat, bound: nat, r: nat, m: nat)
    requires r < bound && m == q * bound
    ensures |WithRemainder(m, bound, r)| == q
    decreases q
  {
    hide WithRemainder;
    if q == 0 {
      NoShare(bound, r);
    } else {
      OneLess(q, bound, m);
      EqualShares(q - 1, bound, r, m - bound);
      OneMoreShare(m - bound, bound, r, q - 1);
    }
  }

  /** The raw outputs that a draw accepts at once, yielding r. */
  ghost function YieldingAtOnce(bound: nat, r: nat): set<nat>
    requires bound > 0
  {
    set x: nat | x < RANGE && YieldsAtOnce(x, bound, r)
  }

  ghost predicate YieldsAtOnce(x: nat, bound: nat, r: nat)
    requires bound > 0
  {
    Draws((_: nat) => x, 0, bound, 1, r)
  }

  /** Of the generator's 2^32 outputs, equally many yield each number below the bound,
      as many as fit, and more than half of all yield one. */
  lemma DrawIsUnbiased(bound: nat, r: nat)
    requires 0 < bound <= 0x1_0000_0000 && r < bound
    ensures |YieldingAtOnce(bound, r)| == 0x1_0000_0000 / bound
    ensures 0x1_0000_0000 < 2 * (bound * (0x1_0000_0000 / bound))
  {
    var q := RANGE / bound;
    LimitIsMultiple(RANGE, bound);
    EqualShares(q, bound, r, q * bound);
    assert YieldingAtOnce(bound, r) == WithRemainder(q * bound, bound, r) by {
      forall x: nat
        ensures x in YieldingAtOnce(bound, r) <==> x in WithRemainder(q * bound, bound, r)
      {
        hide Limit;
        if x < Limit(bound) && x % bound == r { assert YieldsAtOnce(x, bound, r); }
      }
    }
  }

  lemma LimitIsMultiple(range: nat, bound: nat)
    requires 0 < bound <= range
    ensures range - range % bound == range / bound * bound
    ensures 2 * (range - range % bound) > range
  {
    var q := range / bound;
    Multiple(q, bound);
  }

  /** From every point on, draws below any bound the generator can serve come to an end. */
  ghost predicate AlwaysAccepts(raw: Stream) {
    forall p: nat, bound: nat :: 0 < bound <= RANGE ==> Accepts(raw, p, bound)
  }

  ghost predicate LowFrom(raw: Stream, p: nat) {
    exists k: nat :: k >= p && raw(k) <= RANGE / 2
  }

  /** Draws always end exactly when outputs in the lower half never run out: the
      worst bound is one more than half the range. */
  lemma DrawsAlwaysEnd(raw: Stream)
    ensures AlwaysAccepts(raw) <==> forall p: nat :: LowFrom(raw, p)
  {
    if AlwaysAccepts(raw) {
      forall p: nat ensures LowFrom(raw, p) { WorstBound(raw, p); }
    }
    if forall p: nat :: LowFrom(raw, p) {
      forall p: nat, bound: nat | 0 < bound <= RANGE ensures Accepts(raw, p, bound) { LowIsAccepted(raw, p, bound); }
    }
  }

  lemma WorstBound(raw: Stream, p: nat)
    requires Accepts(raw, p, RANGE / 2 + 1)
    ensures LowFrom(raw, p)
  {
    assert Limit(RANGE / 2 + 1) == RANGE / 2 + 1;
  }

  lemma LowIsAccepted(raw: Stream, p: nat, bound: nat)
    requires LowFrom(raw, p) && 0 < bound <= RANGE
    ensures Accepts(raw, p, bound)
  {
    LimitIsMultiple(RANGE, bound);
    var k: nat :| k >= p && raw(k) <= RANGE / 2;
    assert raw(k) < Limit(bound);
  }

  function Zeros(): Stream {
    (k: nat) => 0
  }

  /** There are such generators. */
  lemma SomeGeneratorAccepts()
    ensures AlwaysAccepts(Zeros())
  {
    forall p: nat ensures LowFrom(Zeros(), p) { assert Zeros()(p) <= RANGE / 2; }
    DrawsAlwaysEnd(Zeros());
  }

  // ---------------------------------------------------------- the shuffle

  function Swap<T>(s: seq<T>, i: nat, j: nat): (r: seq<T>)
    requires i < |s| && j < |s|
    ensures |r| == |s|
  {
    s[i := s[j]][j := s[i]]
  }

  /** One choice for each position, no later than the position itself. */
  ghost predicate Choices(c: seq<nat>, n: nat) {
    |c| == n && forall i :: 0 <= i < n ==> c[i] <= i
  }

  /** The shuffle with the choices c: the last position is settled first. */
  ghost function Shuffled<T>(s: seq<T>, c: seq<nat>): (r: seq<T>)
    requires Choices(c, |s|)
    ensures |r| == |s|
    decreases |s|
  {
    if s == [] then []
    else
      var n := |s| - 1;
      var t := Swap(s, n, c[n]);
      Shuffled(t[..n], c[..n]) + [t[n]]
  }

  /** The last element is the one at the last choice, and what stood there takes its
      place among the rest. */
  lemma LastPlaced<T>(s: seq<T>, c: seq<nat>, n: nat)
    requires |s| == n + 1 && Choices(c, n + 1)
    ensures Shuffled(s, c)[n] == s[c[n]]
    ensures Shuffled(s, c)[..n] == Shuffled(if c[n] < n then s[..n][c[n] := s[n]] else s[..n], c[..n])
  {
    assert Swap(s, n, c[n])[..n] == if c[n] < n then s[..n][c[n] := s[n]] else s[..n];
  }

  method SwapInPlace<T>(a: array<T>, i: nat, j: nat)
    requires i < a.Length && j < a.Length
    modifies a
    ensures a[..] == Swap(old(a[..]), i, j)
  {
    a[i], a[j] := a[j], a[i];
  }

  ghost predicate DrawnAt(raw: Stream, pos: nat, i: nat, drawn: seq<nat>, ends: seq<nat>, k: nat)
    requires k < |drawn| == |ends|
  {
    Draws(raw, if k == |ends| - 1 then pos else ends[k + 1], i + k + 1, ends[k], drawn[k])
  }

  /** drawn holds the choices for the positions i, i+1, ..., the last position
      drawn first, starting at pos; ends holds where each draw left the stream.
      Position k is drawn with bound k + 1. */
  ghost predicate Drawn(raw: Stream, pos: nat, i: nat, drawn: seq<nat>, ends: seq<nat>) {
    |ends| == |drawn| && forall k :: 0 <= k < |drawn| ==> DrawnAt(raw, pos, i, drawn, ends, k)
  }

  /** t is s shuffled by the draws that begin at pos. */
  ghost predicate ShuffleOf<T>(raw: Stream, pos: nat, s: seq<T>, t: seq<T>) {
    exists c, ends :: ShuffledBy(raw, pos, s, t, c, ends)
  }

  ghost predicate ShuffledBy<T>(raw: Stream, pos: nat, s: seq<T>, t: seq<T>, c: seq<nat>, ends: seq<nat>) {
    Choices(c, |s|) && (s != [] ==> Drawn(raw, pos, 1, c[1..], ends)) && t == Shuffled(s, c)
  }

  /** Shuffling an array in place. c is the vector of choices the draws came to. */
  method DeterministicShuffle<T>(a: array<T>, raw: Stream, pos: nat) returns (next: nat, ghost c: seq<nat>, ghost ends: seq<nat>)
    requires forall p, bound :: p >= pos && 0 < bound <= a.Length ==> Accepts(raw, p, bound)
    modifies a
    ensures Choices(c, a.Length)
    ensures a.Length > 0 ==> Drawn(raw, pos, 1, c[1..], ends)
    ensures a[..] == Shuffled(old(a[..]), c) && ShuffleOf(raw, pos, old(a[..]), a[..])
  {
    hide Drawn, Draws, Accepts, Settled, Shuffled, Swap;
    ghost var s := a[..];
    ghost var drawn: seq<nat> := [];
    next, ends := pos, [];
    NoneDrawn(raw, pos, a.Length);
    var i := a.Length;
    NoneSettled(s);
    assert a[..] == s && i == |s|;
    assert forall p :: Choices(p, i) ==> Settled(s, s, i, p, []);
    while i > 1
      invariant 0 <= i <= a.Length && next >= pos && (i == 0 ==> a.Length == 0)
      invariant |drawn| == a.Length - i && forall k :: 0 <= k < |drawn| ==> drawn[k] <= i + k
      invariant Drawn(raw, pos, i, drawn, ends) && next == if ends == [] then pos else ends[0]
      invariant forall p :: Choices(p, i) ==> Settled(s, a[..], i, p, drawn)
    {
      var j;
      ghost var mid := next;
      j, next := DeterministicDraw(raw, next, i);
      DrawnNext(raw, pos, i, i - 1, drawn, ends, mid, j, next);
      ends := [next] + ends;
      SettleNext(s, a[..], i, i - 1, j, drawn);
      SwapInPlace(a, i - 1, j);
      i := i - 1;
      drawn := [j] + drawn;
    }
    c := (if i == 0 then [] else [0]) + drawn;
    assert c[..i] + drawn == c && (i == 1 ==> c[1..] == drawn);
    LastStands(s, a[..], i, c[..i], drawn);
    assert ShuffledBy(raw, pos, s, a[..], c, ends);
  }

  /** With the choices p still to come, the positions from i on already stand as the whole shuffle leaves them. */
  ghost predicate Settled<T>(s: seq<T>, t: seq<T>, i: nat, p: seq<nat>, drawn: seq<nat>) {
    && |t| == |s| && i <= |s| && Choices(p, i) && Choices(p + drawn, |s|)
    && Shuffled(s, p + drawn) == Shuffled(t[..i], p) + t[i..]
  }

  lemma NoneDrawn(raw: Stream, pos: nat, i: nat)
    ensures Drawn(raw, pos, i, [], [])
  {
  }

  lemma DrawnNext(raw: Stream, pos: nat, i: nat, m: nat, drawn: seq<nat>, ends: seq<nat>, mid: nat, j: nat, next: nat)
    requires m + 1 == i && Drawn(raw, pos, i, drawn, ends) && mid == if ends == [] then pos else ends[0]
    requires Draws(raw, mid, i, next, j)
    ensures Drawn(raw, pos, m, [j] + drawn, [next] + ends)
  {
    hide Draws;
    var drawn', ends' := [j] + drawn, [next] + ends;
    assert DrawnAt(raw, pos, m, drawn', ends', 0);
    forall k | 0 < k < |drawn'|
      ensures DrawnAt(raw, pos, m, drawn', ends', k)
    {
      assert DrawnAt(raw, pos, i, drawn, ends, k - 1);
    }
  }

  lemma SettleOne<T>(s: seq<T>, t: seq<T>, i: nat, m: nat, j: nat, drawn: seq<nat>, p: seq<nat>)
    requires m + 1 == i <= |t| && j < i && Choices(p, m)
    requires Settled(s, t, i, p + [j], drawn)
    ensures Settled(s, Swap(t, m, j), m, p, [j] + drawn)
  {
    var u := Swap(t, m, j);
    assert p + [j] + drawn == p + ([j] + drawn);
    assert (p + [j])[..m] == p && (p + [j])[m] == j;
    assert Swap(t[..i], m, j) == u[..i];
    assert u[..i][..m] == u[..m];
    assert Shuffled(t[..i], p + [j]) == Shuffled(u[..m], p) + [u[m]];
    assert u[m..] == [u[m]] + t[i..];
  }

  lemma SettleNext<T>(s: seq<T>, t: seq<T>, i: nat, m: nat, j: nat, drawn: seq<nat>)
    requires m + 1 == i <= |t| && j < i
    requires forall p :: Choices(p, i) ==> Settled(s, t, i, p, drawn)
    ensures forall p :: Choices(p, m) ==> Settled(s, Swap(t, m, j), m, p, [j] + drawn)
  {
    forall p | Choices(p, m)
      ensures Settled(s, Swap(t, m, j), m, p, [j] + drawn)
    {
      assert Choices(p + [j], i);
      SettleOne(s, t, i, m, j, drawn, p);
    }
    hide Settled, Swap;
  }

  lemma NoneSettled<T>(s: seq<T>)
    ensures forall p :: Choices(p, |s|) ==> Settled(s, s, |s|, p, [])
  {
    forall p | Choices(p, |s|)
      ensures Settled(s, s, |s|, p, [])
    {
      assert p + [] == p && s[..|s|] == s;
    }
  }

  lemma LastStands<T>(s: seq<T>, t: seq<T>, i: nat, p: seq<nat>, drawn: seq<nat>)
    requires i <= 1 && Settled(s, t, i, p, drawn)
    ensures Shuffled(s, p + drawn) == t
  {
    assert Shuffled(t[..i], p) == t[..i];
  }

  // ------------------------------------------------- choices and permutations

  lemma SwapKeeps<T>(s: seq<T>, i: nat, j: nat)
    requires i < |s| && j < |s|
    ensures multiset(Swap(s, i, j)) == multiset(s)
    ensures Distinct(s) ==> Distinct(Swap(s, i, j))
  {
  }

  /** The shuffle only rearranges. */
  lemma SettledLast<T>(s: seq<T>, c: seq<nat>, n: nat, t: seq<T>)
    requires |s| == n + 1 && Choices(c, n + 1) && t == Swap(s, n, c[n])
    ensures Shuffled(s, c) == Shuffled(t[..n], c[..n]) + [t[n]]
  {
    hide Swap;
  }

  lemma {:induction false} ShuffledIsPermutation<T>(s: seq<T>, c: seq<nat>)
    requires Choices(c, |s|)
    ensures multiset(Shuffled(s, c)) == multiset(s)
    decreases |s|
  {
    hide Swap, Distinct, Shuffled;
    if s == [] {
      assert Shuffled(s, c) == s;
    } else {
      var n := |s| - 1;
      var t := Swap(s, n, c[n]);
      SwapKeeps(s, n, c[n]);
      ShuffledIsPermutation(t[..n], c[..n]);
      SettledLast(s, c, n, t);
      assert t == t[..n] + [t[n]];
    }
  }

  ghost function IndexOf<T>(s: seq<T>, x: T): (k: nat)
    requires x in s
    ensures k < |s| && s[k] == x
  {
    var k: nat :| k < |s| && s[k] == x;
    k
  }

  lemma DropLast<T>(s: seq<T>, p: seq<T>, n: nat)
    requires |s| == |p| == n + 1 && s[n] == p[n] && multiset(s) == multiset(p)
    ensures multiset(s[..n]) == multiset(p[..n])
  {
    assert s == s[..n] + [s[n]] && p == p[..n] + [p[n]];
    assert multiset(s[..n]) == multiset(s) - multiset{s[n]};
    assert multiset(p[..n]) == multiset(p) - multiset{p[n]};
  }

  lemma RestPermuted<T>(s: seq<T>, p: seq<T>, n: nat)
    requires |s| == n + 1 && multiset(s) == multiset(p)
    ensures |p| == |s| && p[n] in s
    ensures multiset(Swap(s, n, IndexOf(s, p[n]))[..n]) == multiset(p[..n])
  {
    assert |s| == |multiset(s)| == |multiset(p)| == |p|;
    assert p[n] in multiset(s);
    var j := IndexOf(s, p[n]);
    SwapKeeps(s, n, j);
    DropLast(Swap(s, n, j), p, n);
  }

  /** The choices that turn s into p. */
  ghost function ChoicesFor<T>(s: seq<T>, p: seq<T>): (c: seq<nat>)
    requires multiset(s) == multiset(p)
    ensures Choices(c, |s|)
    decreases |s|
  {
    if s == [] then []
    else
      var n := |s| - 1;
      RestPermuted(s, p, n);
      var j := IndexOf(s, p[n]);
      ChoicesFor(Swap(s, n, j)[..n], p[..n]) + [j]
  }

  /** Every permutation is reached: by the choices found for it. */
  lemma {:induction false} EveryPermutationReached<T>(s: seq<T>, p: seq<T>)
    requires multiset(s) == multiset(p)
    ensures Shuffled(s, ChoicesFor(s, p)) == p
    decreases |s|
  {
    if s == [] {
      assert |multiset(p)| == 0;
    } else {
      var n := |s| - 1;
      RestPermuted(s, p, n);
      var j := IndexOf(s, p[n]);
      var t := Swap(s, n, j);
      EveryPermutationReached(t[..n], p[..n]);
      var c := ChoicesFor(s, p);
      assert c[..n] == ChoicesFor(t[..n], p[..n]) && c[n] == j;
      assert p == p[..n] + [p[n]];
    }
  }

  /** A generator whose first outputs are the choices, last position first. */
  function Dictating(c: seq<nat>): Stream {
    (p: nat) => if p + 1 < |c| then c[|c| - 1 - p] else 0
  }

  lemma ChoicesDrawn(c: seq<nat>, n: nat)
    requires 0 < n <= RANGE && Choices(c, n)
    ensures exists ends :: Drawn(Dictating(c), 0, 1, c[1..], ends)
  {
    var m := n - 1;
    var ends: seq<nat> := seq(m, k requires 0 <= k < m => m - k);
    forall k: nat | k < m
      ensures DrawnAt(Dictating(c), 0, 1, c[1..], ends, k)
    {
      DictatedDraw(c, n, k, m - k - 1, k + 2);
    }
    assert Drawn(Dictating(c), 0, 1, c[1..], ends);
  }

  lemma DictatedDraw(c: seq<nat>, n: nat, k: nat, p: nat, bound: nat)
    requires n <= RANGE && Choices(c, n) && k + 1 < n && p == n - 2 - k && bound == k + 2
    ensures Draws(Dictating(c), p, bound, p + 1, c[k + 1])
  {
    assert Dictating(c)(p) == c[k + 1] < bound;
    LimitIsMultiple(RANGE, bound);
    Multiple(RANGE / bound, bound);
    hide Dictating;
    assert c[k + 1] % bound == c[k + 1];
  }

  /** Every permutation of at most 2^32 elements is what some generator's draws come to. */
  lemma EveryShuffleDrawn<T>(s: seq<T>, p: seq<T>)
    requires multiset(s) == multiset(p) && |s| <= RANGE
    ensures exists raw :: ShuffleOf(raw, 0, s, p)
  {
    EveryPermutationReached(s, p);
    var c := ChoicesFor(s, p);
    hide Drawn;
    var ends: seq<nat> := [];
    if s != [] {
      ChoicesDrawn(c, |s|);
      ends :| Drawn(Dictating(c), 0, 1, c[1..], ends);
    }
    assert ShuffledBy(Dictating(c), 0, s, p, c, ends);
    assert ShuffleOf(Dictating(c), 0, s, p);
  }

  lemma IndexOfOnly<T>(s: seq<T>, j: nat)
    requires Distinct(s) && j < |s|
    ensures IndexOf(s, s[j]) == j
  {
    assert s[IndexOf(s, s[j])] == s[j];
  }

  lemma {:induction false} ChoiceForLast<T>(s: seq<T>, p: seq<T>, n: nat, j: nat)
    requires Distinct(s) && |s| == n + 1 && multiset(s) == multiset(p) && j <= n && |p| == n + 1 && s[j] == p[n]
    ensures multiset(Swap(s, n, j)[..n]) == multiset(p[..n])
    ensures ChoicesFor(s, p) == ChoicesFor(Swap(s, n, j)[..n], p[..n]) + [j]
  {
    RestPermuted(s, p, n);
    IndexOfOnly(s, j);
    hide Swap, IndexOf, Distinct, Choices;
  }

  lemma ShuffledSplit<T>(s: seq<T>, c: seq<nat>, n: nat)
    requires |s| == n + 1 && Choices(c, |s|)
    ensures Choices(c[..n], n) && c[n] <= n && c == c[..n] + [c[n]]
    ensures Shuffled(s, c)[n] == s[c[n]] && Shuffled(s, c)[..n] == Shuffled(Swap(s, n, c[n])[..n], c[..n])
    ensures Distinct(s) ==> Distinct(Swap(s, n, c[n])[..n])
  {
    hide Swap;
    SwapKeeps(s, n, c[n]);
    SwapLast(s, n, c[n]);
    DistinctFront(Swap(s, n, c[n]), n);
  }

  lemma SwapLast<T>(s: seq<T>, n: nat, j: nat)
    requires |s| == n + 1 && j <= n
    ensures Swap(s, n, j)[n] == s[j]
  {
  }

  lemma DistinctFront<T>(s: seq<T>, n: nat)
    requires n <= |s|
    ensures Distinct(s) ==> Distinct(s[..n])
  {
  }

  /** On distinct elements the choices can be read back, so no two vectors give the same permutation. */
  lemma {:induction false} ChoicesReadBack<T>(s: seq<T>, c: seq<nat>)
    requires Distinct(s) && Choices(c, |s|)
    ensures multiset(s) == multiset(Shuffled(s, c))
    ensures ChoicesFor(s, Shuffled(s, c)) == c
    decreases |s|
  {
    ShuffledIsPermutation(s, c);
    if s != [] {
      var n := |s| - 1;
      ShuffledSplit(s, c, n);
      hide *;
      ChoiceForLast(s, Shuffled(s, c), n, c[n]);
      ChoicesReadBack(Swap(s, n, c[n])[..n], c[..n]);
    }
  }
}
