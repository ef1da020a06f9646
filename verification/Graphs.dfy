/** The advertised-topology graph: adjacency lists over the vertices 0..N-1. */
module Graphs {
  type Graph = seq<seq<nat>>

  predicate Increasing(s: seq<nat>) {
    forall i, j :: 0 <= i < j < |s| ==> s[i] < s[j]
  }

  /** What the adjacency build leaves behind: neighbours in range, sorted and
      free of duplicates, no self loops, and every edge listed at both ends. */
  predicate ValidGraph(adj: Graph) {
    && (forall u :: 0 <= u < |adj| ==> Increasing(adj[u]) && u !in adj[u])
    && (forall u, i :: 0 <= u < |adj| && 0 <= i < |adj[u]| ==> adj[u][i] < |adj|)
    && (forall u, v :: 0 <= u < |adj| && 0 <= v < |adj| ==> (v in adj[u] <==> u in adj[v]))
  }

  /** all holds exactly the sequences of length k over the vertices 0..n-1. */
  ghost predicate HoldsAllSeqs(n: nat, k: nat, all: set<seq<nat>>) {
    forall s :: s in all <==> |s| == k && forall i :: 0 <= i < k ==> s[i] < n
  }

  lemma {:induction false} AllSeqsExist(n: nat, k: nat) returns (all: set<seq<nat>>)
    ensures HoldsAllSeqs(n, k, all)
  {
    if k == 0 {
      all := {[]};
    } else {
      var shorter := AllSeqsExist(n, k - 1);
      all := set s, x | s in shorter && 0 <= x < n :: s + [x];
      forall s: seq<nat> | |s| == k && forall i :: 0 <= i < k ==> s[i] < n
        ensures s in all
      {
        assert s[..k - 1] in shorter && s == s[..k - 1] + [s[k - 1]];
      }
    }
  }

  ghost function AllSeqs(n: nat, k: nat): (all: set<seq<nat>>)
    ensures HoldsAllSeqs(n, k, all)
  {
    assert exists all :: HoldsAllSeqs(n, k, all) by {
      var all := AllSeqsExist(n, k);
    }
    var all :| HoldsAllSeqs(n, k, all);
    all
  }

  predicate Distinct<T(==)>(s: seq<T>) {
    forall i, j :: 0 <= i < j < |s| ==> s[i] != s[j]
  }

  /** Pigeonhole: distinct numbers below n are at most n. */
  lemma {:induction false} DistinctBelow(s: seq<nat>, n: nat)
    requires Distinct(s) && forall i :: 0 <= i < |s| ==> s[i] < n
    ensures |s| <= n
  {
    if s != [] {
      assert s[0] < n;
      if n - 1 in s {
        var k :| 0 <= k < |s| && s[k] == n - 1;
        var rest := s[..k] + s[k + 1..];
        DistinctBelow(rest, n - 1);
      } else {
        DistinctBelow(s, n - 1);
      }
    }
  }
}
