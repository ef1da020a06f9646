/** What the feature collector keeps of the control traffic. */
module Collector {
  import opened Edges
  import opened MapSums
  import opened Sets

  /** A topology message as the collector sees it. */
  datatype Tc = Tc(originator: Address, ansn: nat, neighbors: seq<Address>, vtime: real, size: nat)

  const MODULUS: int := 0x1_0000

  // --------------------------------------------------------------- counting

  /** Control message counts and bytes by kind, per sender and per advertised content,
      with the times of control messages and the sizes of all of them. */
  datatype Counts = Counts(tc: nat, mid: nat, hna: nat, tcBytes: nat, midBytes: nat, hnaBytes: nat,
                           bySender: map<Address, nat>, bytesBySender: map<Address, nat>, byContent: map<multiset<Address>, nat>,
                           controlTimes: seq<real>, packetSizes: seq<nat>)

  const NO_COUNTS := Counts(0, 0, 0, 0, 0, 0, map[], map[], map[], [], [])

  function CountTc(c: Counts, tc: Tc, now: real): Counts {
    var a, content := tc.originator, multiset(tc.neighbors);
    c.(tc := c.tc + 1, tcBytes := c.tcBytes + tc.size,
       bySender := Add(c.bySender, a, 1),
       bytesBySender := Add(c.bytesBySender, a, tc.size),
       byContent := Add(c.byContent, content, 1),
       controlTimes := c.controlTimes + [now], packetSizes := c.packetSizes + [tc.size])
  }

  function CountMid(c: Counts, size: nat, now: real): Counts {
    c.(mid := c.mid + 1, midBytes := c.midBytes + size, controlTimes := c.controlTimes + [now], packetSizes := c.packetSizes + [size])
  }

  function CountHna(c: Counts, size: nat, now: real): Counts {
    c.(hna := c.hna + 1, hnaBytes := c.hnaBytes + size, controlTimes := c.controlTimes + [now], packetSizes := c.packetSizes + [size])
  }

  function CountData(c: Counts, bytes: nat): Counts {
    c.(packetSizes := c.packetSizes + [bytes])
  }

  ghost function TotalSize(xs: seq<nat>): nat {
    if xs == [] then 0 else TotalSize(xs[..|xs| - 1]) + xs[|xs| - 1]
  }

  lemma TotalPush(xs: seq<nat>, x: nat)
    ensures TotalSize(xs + [x]) == TotalSize(xs) + x
  {
    assert (xs + [x])[..|xs|] == xs;
  }

  /** The totals are the sums over senders and over contents; every message of any
      kind left its size, every control message its time. */
  ghost predicate CountsAgree(c: Counts, dataPackets: nat, dataBytes: nat) {
    && SumBy(c.bySender, Each()) == c.tc == SumBy(c.byContent, Each())
    && SumBy(c.bytesBySender, Each()) == c.tcBytes
    && |c.controlTimes| == c.tc + c.mid + c.hna
    && |c.packetSizes| == |c.controlTimes| + dataPackets
    && TotalSize(c.packetSizes) == c.tcBytes + c.midBytes + c.hnaBytes + dataBytes
  }

  lemma CountTcAgrees(c: Counts, dataPackets: nat, dataBytes: nat, tc: Tc, now: real)
    requires CountsAgree(c, dataPackets, dataBytes)
    ensures CountsAgree(CountTc(c, tc, now), dataPackets, dataBytes)
  {
    hide SumBy, TotalSize, Add;
    SumAdd(c.bySender, tc.originator, 1);
    SumAdd(c.bytesBySender, tc.originator, tc.size);
    SumAdd(c.byContent, multiset(tc.neighbors), 1);
    TotalPush(c.packetSizes, tc.size);
  }

  lemma CountOthersAgree(c: Counts, dataPackets: nat, dataBytes: nat, size: nat, now: real)
    requires CountsAgree(c, dataPackets, dataBytes)
    ensures CountsAgree(CountMid(c, size, now), dataPackets, dataBytes) && CountsAgree(CountHna(c, size, now), dataPackets, dataBytes)
    ensures CountsAgree(CountData(c, size), dataPackets + 1, dataBytes + size)
  {
    TotalPush(c.packetSizes, size);
    hide SumBy, TotalSize;
  }

  // ---------------------------------------------------- sequence numbers

  /** The last sequence number and time of each sender, and what lay between consecutive ones. */
  datatype Serials = Serials(last: map<Address, nat>, increments: seq<int>, skips: nat, lastTime: map<Address, real>, gaps: map<Address, seq<real>>)

  const NO_SERIALS := Serials(map[], [], 0, map[], map[])

  /** cur - prev in 16 bits, read as a signed number. */
  function SignedDelta(prev: nat, cur: nat): int {
    var d := (cur - prev) % MODULUS;
    if d >= MODULUS / 2 then d - MODULUS else d
  }

  function NoteSerial(s: Serials, tc: Tc, now: real): Serials {
    var a := tc.originator;
    var noted :=
      if a in s.last then
        var d := SignedDelta(s.last[a], tc.ansn);
        s.(increments := s.increments + [d], skips := if d > 1 || d < 0 then s.skips + 1 else s.skips)
      else s;
    noted.(last := s.last[a := tc.ansn], lastTime := s.lastTime[a := now],
           gaps := if a in s.lastTime then s.gaps[a := List(s.gaps, a) + [now - s.lastTime[a]]] else s.gaps)
  }

  /** The signed delta is the representative of the difference nearest zero. */
  lemma SignedDeltaNearest(prev: nat, cur: nat, e: int)
    ensures (SignedDelta(prev, cur) - (cur - prev)) % MODULUS == 0
    ensures -(MODULUS / 2) <= SignedDelta(prev, cur) < MODULUS / 2
    ensures (e - (cur - prev)) % MODULUS == 0 && -(MODULUS / 2) <= e < MODULUS / 2 ==> e == SignedDelta(prev, cur)
  {
  }

  ghost function SumOf(xs: seq<int>): int {
    if xs == [] then 0 else SumOf(xs[..|xs| - 1]) + xs[|xs| - 1]
  }

  /** How many increments were skips: neither a repeat nor the next number. */
  ghost function SkipsIn(xs: seq<int>): nat {
    if xs == [] then 0 else SkipsIn(xs[..|xs| - 1]) + if xs[|xs| - 1] == 0 || xs[|xs| - 1] == 1 then 0 else 1
  }

  /** Every message but a sender's first left an increment, and every one but a
      sender's first left a gap. */
  ghost predicate SerialsCounted(s: Serials, tcs: nat) {
    && s.last.Keys == s.lastTime.Keys
    && |s.increments| + |s.last| == tcs
    && SumBy(s.gaps, Length()) + |s.lastTime| == tcs
  }

  /** The increments add up, modulo 2^16, to the way from first to last over all senders. */
  ghost predicate SerialsTelescope(s: Serials, first: map<Address, nat>) {
    && first.Keys == s.last.Keys
    && (SumOf(s.increments) - (SumBy(s.last, Each()) - SumBy(first, Each()))) % MODULUS == 0
  }

  ghost predicate SerialsAgree(s: Serials, first: map<Address, nat>, tcs: nat) {
    SerialsCounted(s, tcs) && SerialsTelescope(s, first) && s.skips == SkipsIn(s.increments)
  }

  function NoteFirst(first: map<Address, nat>, tc: Tc): map<Address, nat> {
    if tc.originator in first then first else first[tc.originator := tc.ansn]
  }

  lemma NoteSerialCounted(s: Serials, tcs: nat, tc: Tc, now: real)
    requires SerialsCounted(s, tcs)
    ensures SerialsCounted(NoteSerial(s, tc, now), tcs + 1)
  {
    hide SignedDelta, SumBy;
    var a := tc.originator;
    SizePut(s.last, a, tc.ansn);
    SizePut(s.lastTime, a, now);
    if a in s.lastTime {
      SumPut<Address, seq<real>>(s.gaps, Length(), a, List(s.gaps, a) + [now - s.lastTime[a]]);
    }
  }

  lemma NoteSerialTelescopes(s: Serials, first: map<Address, nat>, tc: Tc, now: real)
    requires SerialsTelescope(s, first)
    ensures SerialsTelescope(NoteSerial(s, tc, now), NoteFirst(first, tc))
  {
    var a := tc.originator;
    SumPut<Address, nat>(s.last, Each(), a, tc.ansn);
    if a in s.last {
      var d := SignedDelta(s.last[a], tc.ansn);
      assert (s.increments + [d])[..|s.increments|] == s.increments;
      SignedDeltaNearest(s.last[a], tc.ansn, 0);
      Congruent(SumOf(s.increments), SumBy(s.last, Each()) - SumBy(first, Each()), d, tc.ansn - s.last[a]);
    } else {
      SumPut<Address, nat>(first, Each(), a, tc.ansn);
    }
  }

  lemma NoteSerialSkips(s: Serials, tc: Tc, now: real)
    requires s.skips == SkipsIn(s.increments)
    ensures NoteSerial(s, tc, now).skips == SkipsIn(NoteSerial(s, tc, now).increments)
  {
    hide SignedDelta;
    if tc.originator in s.last {
      assert (s.increments + [SignedDelta(s.last[tc.originator], tc.ansn)])[..|s.increments|] == s.increments;
    }
  }

  lemma NoteSerialAgrees(s: Serials, first: map<Address, nat>, tcs: nat, tc: Tc, now: real)
    requires SerialsAgree(s, first, tcs)
    ensures SerialsAgree(NoteSerial(s, tc, now), NoteFirst(first, tc), tcs + 1)
  {
    NoteSerialCounted(s, tcs, tc, now);
    NoteSerialTelescopes(s, first, tc, now);
    NoteSerialSkips(s, tc, now);
  }

  lemma Congruent(a: int, b: int, c: int, d: int)
    requires (a - b) % MODULUS == 0 && (c - d) % MODULUS == 0
    ensures (a + c - (b + d)) % MODULUS == 0
  {
  }

  // ------------------------------------------------- advertised selector sets

  /** Each sender's advertised sets in order, their sizes, the distinct ones, and how often a set changed. */
  datatype Selectors = Selectors(history: map<Address, seq<set<Address>>>, sizes: map<Address, seq<nat>>,
                                 distinct: map<Address, set<set<Address>>>, churn: nat)

  const NO_SELECTORS := Selectors(map[], map[], map[], 0)

  function NoteSelectors(m: Selectors, tc: Tc): Selectors {
    var a := tc.originator;
    var mprs := set x | x in tc.neighbors;
    var past := List(m.history, a);
    m.(churn := if past != [] && past[|past| - 1] != mprs then m.churn + 1 else m.churn,
       history := m.history[a := past + [mprs]],
       sizes := m.sizes[a := List(m.sizes, a) + [|mprs|]],
       distinct := m.distinct[a := Members(m.distinct, a) + {mprs}])
  }

  /** The distinct sets of a sender are those of its history, which is not empty. */
  ghost predicate HistoriesMatch(m: Selectors) {
    && m.history.Keys == m.distinct.Keys
    && (forall a, s :: a in m.history ==> (s in m.distinct[a] <==> s in m.history[a]))
    && (forall a :: a in m.history ==> m.history[a] != [])
  }

  /** The sizes are those of the sets. */
  ghost predicate SizesMatch(m: Selectors) {
    && m.sizes.Keys == m.history.Keys
    && (forall a :: a in m.history && a in m.sizes ==> SizesOf(m.sizes[a], m.history[a]))
  }

  ghost predicate SizesOf(sizes: seq<nat>, sets: seq<set<Address>>) {
    |sizes| == |sets| && forall i :: 0 <= i < |sets| ==> sizes[i] == |sets[i]|
  }

  lemma SizesKept(m: Selectors, tc: Tc)
    requires SizesMatch(m)
    ensures SizesMatch(NoteSelectors(m, tc))
  {
    var n, a := NoteSelectors(m, tc), tc.originator;
    if a !in m.history { assert SizesOf([], []); }
    assert SizesOf(List(m.sizes, a), List(m.history, a));
    assert n.sizes.Keys == m.sizes.Keys + {a} && n.history.Keys == m.history.Keys + {a};
  }

  /** The histories hold every message; there is at most one distinct set for
      each sender and one more for each change. */
  ghost predicate SelectorsAgree(m: Selectors, tcs: nat) {
    && HistoriesMatch(m) && SizesMatch(m)
    && SumBy(m.history, Length()) == tcs
    && SumBy(m.distinct, Size()) <= m.churn + |m.history|
  }

  lemma HistoriesKept(m: Selectors, tc: Tc)
    requires HistoriesMatch(m)
    ensures HistoriesMatch(NoteSelectors(m, tc))
  {
    var n := NoteSelectors(m, tc);
    assert n.history.Keys == m.history.Keys + {tc.originator} == n.distinct.Keys;
    forall a, s | a in n.history
      ensures n.history[a] != [] && (s in n.distinct[a] <==> s in n.history[a])
    {
      HistoryKept(m, tc, a, s);
    }
    hide NoteSelectors;
  }

  lemma HistoryKept(m: Selectors, tc: Tc, a: Address, s: set<Address>)
    requires HistoriesMatch(m)
    ensures var n := NoteSelectors(m, tc);
      a in n.history ==> a in n.distinct && n.history[a] != [] && (s in n.distinct[a] <==> s in n.history[a])
  {
    if a in m.history { assert s in m.distinct[a] <==> s in m.history[a]; }
  }

  lemma NoteSelectorsAgrees(m: Selectors, tcs: nat, tc: Tc)
    requires SelectorsAgree(m, tcs)
    ensures SelectorsAgree(NoteSelectors(m, tc), tcs + 1)
  {
    SelectorSums(m, tcs, tc);
    HistoriesKept(m, tc);
    SizesKept(m, tc);
    hide SumBy, NoteSelectors, HistoriesMatch, SizesMatch;
  }

  lemma SelectorSums(m: Selectors, tcs: nat, tc: Tc)
    requires SelectorsAgree(m, tcs)
    ensures SumBy(NoteSelectors(m, tc).history, Length()) == tcs + 1
    ensures SumBy(NoteSelectors(m, tc).distinct, Size()) <= NoteSelectors(m, tc).churn + |NoteSelectors(m, tc).history|
  {
    hide SumBy;
    var a := tc.originator;
    var mprs := set x | x in tc.neighbors;
    var past, seen := List(m.history, a), Members(m.distinct, a);
    SumPut(m.history, Length(), a, past + [mprs]);
    SumPut(m.distinct, Size(), a, seen + {mprs});
    SizePut(m.history, a, past + [mprs]);
    DistinctGrows(m, tcs, tc, past, seen, mprs);
  }

  /** The set of distinct sets grows only by a change or a new sender. */
  lemma DistinctGrows(m: Selectors, tcs: nat, tc: Tc, past: seq<set<Address>>, seen: set<set<Address>>, mprs: set<Address>)
    requires SelectorsAgree(m, tcs) && past == List(m.history, tc.originator) && seen == Members(m.distinct, tc.originator)
    ensures |seen + {mprs}| <= |seen| + 1
    ensures past != [] && past[|past| - 1] == mprs ==> |seen + {mprs}| == |seen|
  {
    if past != [] && past[|past| - 1] == mprs {
      assert mprs in past;
      assert seen + {mprs} == seen;
    }
  }

  // -------------------------------------------------------------- addresses

  /** Addresses by role, and when each was first and last seen. */
  datatype Addresses = Addresses(sentTc: set<Address>, inPayload: set<Address>, sentData: set<Address>,
                                 firstSeen: map<Address, real>, lastSeen: map<Address, real>)

  const NO_ADDRESSES := Addresses({}, {}, {}, map[], map[])

  function See(d: Addresses, a: Address, now: real): Addresses {
    d.(firstSeen := if a in d.firstSeen then d.firstSeen else d.firstSeen[a := now], lastSeen := d.lastSeen[a := now])
  }

  function SeeAdvertised(d: Addresses, neighbors: seq<Address>, now: real): Addresses {
    if neighbors == [] then d
    else
      var e := SeeAdvertised(d, neighbors[..|neighbors| - 1], now);
      var a := neighbors[|neighbors| - 1];
      See(e.(inPayload := e.inPayload + {a}), a, now)
  }

  function SeeTc(d: Addresses, tc: Tc, now: real): Addresses {
    SeeAdvertised(See(d.(sentTc := d.sentTc + {tc.originator}), tc.originator, now), tc.neighbors, now)
  }

  function SeeData(d: Addresses, src: Address, now: real): Addresses {
    See(d.(sentData := d.sentData + {src}), src, now)
  }

  /** Seen means seen in one of the three roles. */
  ghost predicate AddressesAgree(d: Addresses) {
    d.firstSeen.Keys == d.lastSeen.Keys == d.sentTc + d.inPayload + d.sentData
  }

  lemma {:induction false} SeeAdvertisedAgrees(d: Addresses, neighbors: seq<Address>, now: real)
    requires AddressesAgree(d)
    ensures AddressesAgree(SeeAdvertised(d, neighbors, now))
  {
    if neighbors != [] { SeeAdvertisedAgrees(d, neighbors[..|neighbors| - 1], now); }
  }

  lemma SeeTcAgrees(d: Addresses, tc: Tc, now: real)
    requires AddressesAgree(d)
    ensures AddressesAgree(SeeTc(d, tc, now))
  {
    var e := See(d.(sentTc := d.sentTc + {tc.originator}), tc.originator, now);
    assert AddressesAgree(e);
    SeeAdvertisedAgrees(e, tc.neighbors, now);
  }

  /** A phantom is advertised but never sends; everything else seen has sent. */
  lemma PhantomsAreTheRest(d: Addresses)
    requires AddressesAgree(d)
    ensures |d.firstSeen| == |d.sentTc + d.sentData| + |d.inPayload - d.sentTc - d.sentData|
  {
    UnionSize(d.sentTc + d.sentData, d.inPayload - d.sentTc - d.sentData, d.firstSeen.Keys);
  }

  // ------------------------------------------- the shape of topology messages

  /** Size, number of advertised links and validity time of each message, and how
      often each address sent one and was advertised, with the last octets advertised. */
  datatype Messages = Messages(sizes: seq<nat>, links: seq<nat>, vtimes: seq<real>, senders: map<Address, nat>,
                               advertised: map<Address, nat>, octets: seq<nat>)

  const NO_MESSAGES := Messages([], [], [], map[], map[], [])

  function NoteShape(m: Messages, tc: Tc): Messages {
    m.(sizes := m.sizes + [tc.size], links := m.links + [|tc.neighbors|], vtimes := m.vtimes + [tc.vtime],
       senders := Add(m.senders, tc.originator, 1))
  }

  function NoteNeighbor(m: Messages, a: Address): Messages {
    m.(advertised := Add(m.advertised, a, 1), octets := m.octets + [a % 256])
  }

  function NoteNeighbors(m: Messages, neighbors: seq<Address>): Messages {
    if neighbors == [] then m
    else NoteNeighbor(NoteNeighbors(m, neighbors[..|neighbors| - 1]), neighbors[|neighbors| - 1])
  }

  function NoteMessage(m: Messages, tc: Tc): Messages {
    NoteNeighbors(NoteShape(m, tc), tc.neighbors)
  }

  /** One entry a message, totalling the bytes; one count and one octet for each link
      advertised; senders are counted as often as they are among the message counts. */
  ghost predicate MessagesAgree(m: Messages, c: Counts, inPayload: set<Address>) {
    && |m.sizes| == |m.links| == |m.vtimes| == c.tc
    && TotalSize(m.sizes) == c.tcBytes
    && TotalSize(m.links) == |m.octets| == SumBy(m.advertised, Each())
    && m.senders == c.bySender && m.advertised.Keys == inPayload
  }

  lemma {:induction false} NeighborsCounted(m: Messages, neighbors: seq<Address>)
    ensures var n := NoteNeighbors(m, neighbors);
      && n == m.(advertised := n.advertised, octets := n.octets)
      && |n.octets| == |m.octets| + |neighbors|
      && SumBy(n.advertised, Each()) == SumBy(m.advertised, Each()) + |neighbors|
      && n.advertised.Keys == m.advertised.Keys + set a | a in neighbors
  {
    if neighbors != [] {
      var before, a := neighbors[..|neighbors| - 1], neighbors[|neighbors| - 1];
      NeighborsCounted(m, before);
      SumAdd(NoteNeighbors(m, before).advertised, a, 1);
      assert neighbors == before + [a];
      hide SumBy;
    }
  }

  lemma NoteMessageAgrees(m: Messages, c: Counts, inPayload: set<Address>, tc: Tc, now: real)
    requires MessagesAgree(m, c, inPayload)
    ensures MessagesAgree(NoteMessage(m, tc), CountTc(c, tc, now), inPayload + set a | a in tc.neighbors)
  {
    hide NoteNeighbors, SumBy, TotalSize;
    NeighborsCounted(NoteShape(m, tc), tc.neighbors);
    TotalPush(m.sizes, tc.size);
    TotalPush(m.links, |tc.neighbors|);
  }

  lemma {:induction false} AdvertisedSeen(d: Addresses, neighbors: seq<Address>, now: real)
    ensures SeeAdvertised(d, neighbors, now).inPayload == d.inPayload + set a | a in neighbors
  {
    if neighbors != [] {
      AdvertisedSeen(d, neighbors[..|neighbors| - 1], now);
      assert neighbors == neighbors[..|neighbors| - 1] + [neighbors[|neighbors| - 1]];
    }
  }

  lemma NoMessagesAgree()
    ensures MessagesAgree(NO_MESSAGES, NO_COUNTS, {})
  {
  }

  lemma NoCountsAgree()
    ensures CountsAgree(NO_COUNTS, 0, 0)
  {
  }

  lemma NoSerialsAgree()
    ensures SerialsAgree(NO_SERIALS, map[], 0)
  {
  }

  lemma NoSelectorsAgree()
    ensures SelectorsAgree(NO_SELECTORS, 0)
  {
  }
}
