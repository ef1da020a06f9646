/** Reading the attacker list, and choosing flows that avoid it. */
module AttackerList {
  import opened FlowPairs
  import opened Graphs
  import opened Shuffle

  /** A comma-separated piece of the list: nothing, a number as std::stoul reads it,
      or something it throws at. */
  datatype Segment = Nothing | Number(value: nat) | Malformed

  /** The segment names a node that may be an attacker; numbers are cut to 32 bits
      before they are judged. */
  predicate Names(s: Segment, n: nat, id: nat) {
    s.Number? && id == s.value % 0x1_0000_0000 && id < n && id != 0 && id != 1
  }

  /** The ids of the list, in order, as far as they are nodes other than the first
      pair's; everything else is ignored. */
  method ParseAttackers(segments: seq<Segment>, n: nat) returns (ids: seq<nat>)
    ensures forall id :: id in ids <==> exists i :: 0 <= i < |segments| && Names(segments[i], n, id)
  {
    ids := [];
    for i := 0 to |segments|
      invariant forall id :: id in ids <==> exists j :: 0 <= j < i && Names(segments[j], n, id)
    {
      match segments[i]
      case Nothing =>
      case Malformed =>
      case Number(value) =>
        var id := value % RANGE;
        if id < n && id != SERVER && id != CLIENT {
          assert Names(segments[i], n, id);
          ids := ids + [id];
        }
    }
  }

  /** With the attackers the harness reads, no endpoint of any flow is one: the ids of
      the first pair never enter the list. */
  method ChooseFlows(segments: seq<Segment>, n: nat, minHops: nat, radioRange: real, ghost pos: seq<Point>,
      d: (nat, nat) -> real, raw: Stream, numFlows: nat) returns (r: Result<seq<Flow>>, attackers: set<nat>)
    requires numFlows >= 1 && |pos| == n <= RANGE && IsEuclid(pos, d) && AlwaysAccepts(raw)
    ensures forall id :: id in attackers <==> exists i :: 0 <= i < |segments| && Names(segments[i], n, id)
    ensures r.Success? ==> |r.value| == numFlows && forall e :: e in Endpoints(r.value) ==> e !in attackers
    ensures r == Aborted <==> |CandidateSet(n, attackers)| + 2 < 2 * numFlows
  {
    var ids := ParseAttackers(segments, n);
    attackers := set id | id in ids;
    ghost var listed, order;
    r, listed, order := SelectDataFlowPairs(n, attackers, minHops, radioRange, pos, d, raw, numFlows);
  }

  /** Nodes on a line are apart by the difference of their positions: what the choice
      requires of the distances can be met. */
  lemma LineIsEuclid(pos: seq<Point>, d: (nat, nat) -> real)
    requires forall i :: 0 <= i < |pos| ==> pos[i].y == 0.0 && pos[i].z == 0.0
    requires forall a, b :: 0 <= a < |pos| && 0 <= b < |pos| ==>
      d(a, b) == if pos[a].x < pos[b].x then pos[b].x - pos[a].x else pos[a].x - pos[b].x
    ensures IsEuclid(pos, d)
  {
  }
}
