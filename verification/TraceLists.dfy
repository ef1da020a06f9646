/** The collector's lists, counts and sets, told by the trace alone. */
module TraceLists {
  import opened Airwaves
  import opened Collector
  import opened CollectorTraces
  import opened Edges
  import opened MapSums

  // ---------------------------------------------------------------- lists

  /** What pick takes from each observation, in order. */
  ghost function Gather<T>(events: Trace, pick: (Event, real) -> seq<T>): seq<T> {
    if events == [] then []
    else Gather(events[..|events| - 1], pick) + pick(events[|events| - 1].0, events[|events| - 1].1)
  }

  ghost function ControlTime(): (Event, real) -> seq<real> {
    (e: Event, now: real) => if e.HeardTc? || e.HeardMid? || e.HeardHna? then [now] else []
  }

  ghost function PacketSize(): (Event, real) -> seq<nat> {
    (e: Event, now: real) =>
      match e
      case HeardTc(tc) => [tc.size]
      case HeardMid(size) => [size]
      case HeardHna(size) => [size]
      case SentData(_, bytes) => [bytes]
      case _ => []
  }

  ghost function TcSize(): (Event, real) -> seq<nat> {
    (e: Event, now: real) => if e.HeardTc? then [e.tc.size] else []
  }

  ghost function TcLinks(): (Event, real) -> seq<nat> {
    (e: Event, now: real) => if e.HeardTc? then [|e.tc.neighbors|] else []
  }

  ghost function TcVtime(): (Event, real) -> seq<real> {
    (e: Event, now: real) => if e.HeardTc? then [e.tc.vtime] else []
  }

  function LastOctets(neighbors: seq<Address>): seq<nat> {
    seq(|neighbors|, i requires 0 <= i < |neighbors| => neighbors[i] % 256)
  }

  ghost function TcOctets(): (Event, real) -> seq<nat> {
    (e: Event, now: real) => if e.HeardTc? then LastOctets(e.tc.neighbors) else []
  }

  ghost function DeliveryLatency(): (Event, real) -> seq<real> {
    (e: Event, now: real) => if e.DeliveredData? then [e.latency] else []
  }

  ghost function DeliveryHops(): (Event, real) -> seq<int> {
    (e: Event, now: real) => if e.DeliveredData? && 1 <= e.ttl <= 64 then [65 - e.ttl] else []
  }

  /** The latencies of one flow. */
  ghost function FlowLatency(f: Flow): (Event, real) -> seq<real> {
    (e: Event, now: real) => if e.DeliveredData? && e.flow == f then [e.latency] else []
  }

  lemma {:induction false} NeighborOctets(m: Messages, neighbors: seq<Address>)
    ensures NoteNeighbors(m, neighbors).octets == m.octets + LastOctets(neighbors)
    ensures NoteNeighbors(m, neighbors).sizes == m.sizes && NoteNeighbors(m, neighbors).links == m.links
    ensures NoteNeighbors(m, neighbors).vtimes == m.vtimes
  {
    if neighbors != [] {
      var before, a := neighbors[..|neighbors| - 1], neighbors[|neighbors| - 1];
      NeighborOctets(m, before);
      assert LastOctets(neighbors) == LastOctets(before) + [a % 256];
    }
  }

  lemma CountListsNext(s: State, e: Event, now: real)
    ensures var t := Note(s, e, now);
      && t.counts.controlTimes == s.counts.controlTimes + ControlTime()(e, now)
      && t.counts.packetSizes == s.counts.packetSizes + PacketSize()(e, now)
  {
    hide Add, NoteSerial, NoteSelectors, SeeTc, SeeLinks, SeeData, NoteMessage, SendData, NoteAir;
  }

  lemma MessageListsNext(s: State, e: Event, now: real)
    ensures var m, n := s.messages, Note(s, e, now).messages;
      && n.sizes == m.sizes + TcSize()(e, now) && n.links == m.links + TcLinks()(e, now)
      && n.vtimes == m.vtimes + TcVtime()(e, now) && n.octets == m.octets + TcOctets()(e, now)
  {
    if e.HeardTc? { NeighborOctets(NoteShape(s.messages, e.tc), e.tc.neighbors); }
    hide Add, CountTc, NoteSerial, NoteSelectors, SeeTc, SeeLinks, SeeData, NoteNeighbors, SendData, NoteAir, LastOctets;
  }

  lemma DeliveryListsNext(s: State, e: Event, now: real, f: Flow)
    ensures var d, n := s.air.data, Note(s, e, now).air.data;
      && n.latencies == d.latencies + DeliveryLatency()(e, now) && n.hopCounts == d.hopCounts + DeliveryHops()(e, now)
      && List(n.flowDelays, f) == List(d.flowDelays, f) + FlowLatency(f)(e, now)
  {
    hide Add, CountTc, NoteSerial, NoteSelectors, SeeTc, SeeLinks, SeeData, NoteMessage, NoteFlight, NoteFirstHop, NoteFrame, NoteRelay, NoteForward, Distance;
  }

  /** Every list holds what the trace says, in order. */
  lemma {:induction false} ListsOfTrace(phy: bool, events: Trace)
    ensures var s := Run(phy, events);
      && s.counts.controlTimes == Gather(events, ControlTime()) && s.counts.packetSizes == Gather(events, PacketSize())
      && s.messages.sizes == Gather(events, TcSize()) && s.messages.links == Gather(events, TcLinks())
      && s.messages.vtimes == Gather(events, TcVtime()) && s.messages.octets == Gather(events, TcOctets())
      && s.air.data.latencies == Gather(events, DeliveryLatency()) && s.air.data.hopCounts == Gather(events, DeliveryHops())
  {
    if events != [] {
      var before, e, now := events[..|events| - 1], events[|events| - 1].0, events[|events| - 1].1;
      ListsOfTrace(phy, before);
      CountListsNext(Run(phy, before), e, now);
      MessageListsNext(Run(phy, before), e, now);
      DeliveryListsNext(Run(phy, before), e, now, Flow(0, 0));
      hide Note, ControlTime, PacketSize, TcSize, TcLinks, TcVtime, TcOctets, DeliveryLatency, DeliveryHops;
    }
  }

  /** A flow's delays are the latencies of its deliveries. */
  lemma {:induction false} DelaysOfTrace(phy: bool, events: Trace, f: Flow)
    ensures List(Run(phy, events).air.data.flowDelays, f) == Gather(events, FlowLatency(f))
  {
    if events != [] {
      var before, e, now := events[..|events| - 1], events[|events| - 1].0, events[|events| - 1].1;
      DelaysOfTrace(phy, before, f);
      DeliveryListsNext(Run(phy, before), e, now, f);
      hide Note, FlowLatency;
    }
  }

  // -------------------------------------------------------------- jitter

  function Gap(a: real, b: real): real {
    if a < b then b - a else a - b
  }

  /** The distances between consecutive values. */
  function Steps(xs: seq<real>): seq<real> {
    if |xs| < 2 then [] else Steps(xs[..|xs| - 1]) + [Gap(xs[|xs| - 2], xs[|xs| - 1])]
  }

  /** The last delay is the one the next jitter sample is taken from. */
  ghost predicate JitterOf(d: Data, f: Flow) {
    && (f in d.lastArrival <==> List(d.flowDelays, f) != [])
    && (f in d.lastArrival && List(d.flowDelays, f) != [] ==> d.lastArrival[f] == List(d.flowDelays, f)[|List(d.flowDelays, f)| - 1])
    && List(d.flowJitters, f) == Steps(List(d.flowDelays, f))
  }

  /** What a delivery of g adds to the records of f. */
  lemma ArrivedFor(d: Data, g: Flow, ttl: nat, latency: real, f: Flow)
    ensures var e := Arrived(d, g, ttl, latency);
      && List(e.flowDelays, f) == List(d.flowDelays, f) + (if f == g then [latency] else [])
      && List(e.flowJitters, f) == List(d.flowJitters, f) + (if f == g && f in d.lastArrival then [Gap(d.lastArrival[f], latency)] else [])
      && (f in e.lastArrival <==> f in d.lastArrival || f == g)
      && (f in e.lastArrival ==> e.lastArrival[f] == if f == g then latency else d.lastArrival[f])
  {
    hide Add;
  }

  lemma {:induction false} StepsNext(xs: seq<real>, x: real)
    ensures Steps(xs + [x]) == Steps(xs) + if xs == [] then [] else [Gap(xs[|xs| - 1], x)]
  {
    var ys := xs + [x];
    assert ys[..|ys| - 1] == xs && ys[|ys| - 1] == x;
    if xs != [] { assert ys[|ys| - 2] == xs[|xs| - 1]; }
  }

  lemma {:induction false} JitterNext(d: Data, g: Flow, ttl: nat, latency: real, f: Flow)
    requires JitterOf(d, f)
    ensures JitterOf(Arrived(d, g, ttl, latency), f)
  {
    hide Arrived, List, Steps, Gap;
    ArrivedFor(d, g, ttl, latency, f);
    var delays, jitters := List(d.flowDelays, f), List(d.flowJitters, f);
    assert delays + [] == delays && jitters + [] == jitters;
    StepsNext(delays, latency);
    assert f == g ==> (delays + [latency])[|delays|] == latency;
  }

  lemma JitterKept(s: State, e: Event, now: real, f: Flow)
    requires JitterOf(s.air.data, f)
    ensures JitterOf(Note(s, e, now).air.data, f)
  {
    hide Add, CountTc, NoteSerial, NoteSelectors, SeeTc, SeeLinks, SeeData, NoteMessage, NoteFlight, NoteFirstHop, NoteFrame, NoteRelay, NoteForward;
    hide Arrived, Steps;
    if e.DeliveredData? { JitterNext(s.air.data, e.flow, e.ttl, e.latency, f); }
  }

  lemma {:induction false} JittersOfRun(phy: bool, events: Trace, f: Flow)
    ensures JitterOf(Run(phy, events).air.data, f)
  {
    if events != [] {
      var before, e, now := events[..|events| - 1], events[|events| - 1].0, events[|events| - 1].1;
      JittersOfRun(phy, before, f);
      JitterKept(Run(phy, before), e, now, f);
      hide Note, JitterOf;
    }
  }

  /** A flow's jitter samples are the differences of consecutive latencies. */
  lemma JittersOfTrace(phy: bool, events: Trace, f: Flow)
    ensures List(Run(phy, events).air.data.flowJitters, f) == Steps(Gather(events, FlowLatency(f)))
  {
    JittersOfRun(phy, events, f);
    DelaysOfTrace(phy, events, f);
    hide Steps, Gather, Run;
  }

  // -------------------------------------------------------------- amounts

  /** What weigh gives for each observation, added up. */
  ghost function Amount(events: Trace, weigh: Event -> nat): nat {
    if events == [] then 0 else Amount(events[..|events| - 1], weigh) + weigh(events[|events| - 1].0)
  }

  ghost function BytesFrom(a: Address): Event -> nat {
    (e: Event) => if e.HeardTc? && e.tc.originator == a then e.tc.size else 0
  }

  ghost function WithContent(content: multiset<Address>): Event -> nat {
    (e: Event) => if e.HeardTc? && multiset(e.tc.neighbors) == content then 1 else 0
  }

  ghost function Advertising(a: Address): Event -> nat {
    (e: Event) => if e.HeardTc? then multiset(e.tc.neighbors)[a] else 0
  }

  ghost function SendingOf(f: Flow): Event -> nat {
    (e: Event) => if e.SentData? && e.flow == f then 1 else 0
  }

  ghost function BytesOfFlow(f: Flow): Event -> nat {
    (e: Event) => if e.SentData? && e.flow == f then e.bytes else 0
  }

  ghost function DeliveringOf(f: Flow): Event -> nat {
    (e: Event) => if e.DeliveredData? && e.flow == f then 1 else 0
  }

  ghost function Credits(): Event -> nat {
    (e: Event) => if e.CreditedBytes? then e.bytes else 0
  }

  lemma {:induction false} NeighborCounts(m: Messages, neighbors: seq<Address>, a: Address)
    ensures At(NoteNeighbors(m, neighbors).advertised, a) == At(m.advertised, a) + multiset(neighbors)[a]
  {
    if neighbors != [] {
      NeighborCounts(m, neighbors[..|neighbors| - 1], a);
      assert neighbors == neighbors[..|neighbors| - 1] + [neighbors[|neighbors| - 1]];
    }
  }

  lemma TcAmountsNext(s: State, e: Event, now: real, a: Address, content: multiset<Address>)
    ensures var t := Note(s, e, now);
      && At(t.counts.bytesBySender, a) == At(s.counts.bytesBySender, a) + BytesFrom(a)(e)
      && At(t.counts.byContent, content) == At(s.counts.byContent, content) + WithContent(content)(e)
      && At(t.messages.advertised, a) == At(s.messages.advertised, a) + Advertising(a)(e)
  {
    if e.HeardTc? { NeighborCounts(NoteShape(s.messages, e.tc), e.tc.neighbors, a); }
    hide NoteSerial, NoteSelectors, SeeTc, SeeLinks, SeeData, NoteNeighbors, SendData, NoteAir;
  }

  lemma DataAmountsNext(s: State, e: Event, now: real, f: Flow)
    ensures var d, n := s.air.data, Note(s, e, now).air.data;
      && At(n.sent, f) == At(d.sent, f) + SendingOf(f)(e) && At(n.flowTxBytes, f) == At(d.flowTxBytes, f) + BytesOfFlow(f)(e)
      && At(n.delivered, f) == At(d.delivered, f) + DeliveringOf(f)(e) && n.deliveredBytes == d.deliveredBytes + Credits()(e)
  {
    hide CountTc, NoteSerial, NoteSelectors, SeeTc, SeeLinks, SeeData, NoteMessage, NoteFlight, NoteFirstHop, NoteFrame, NoteRelay, NoteForward, List, Distance;
  }

  /** Counts by sender, content, address and flow are those of the trace. */
  lemma {:induction false} AmountsOfTrace(phy: bool, events: Trace, a: Address, content: multiset<Address>, f: Flow)
    ensures var s := Run(phy, events);
      && At(s.counts.bytesBySender, a) == Amount(events, BytesFrom(a)) && At(s.counts.byContent, content) == Amount(events, WithContent(content))
      && At(s.messages.advertised, a) == Amount(events, Advertising(a))
      && At(s.air.data.sent, f) == Amount(events, SendingOf(f)) && At(s.air.data.flowTxBytes, f) == Amount(events, BytesOfFlow(f))
      && At(s.air.data.delivered, f) == Amount(events, DeliveringOf(f)) && s.air.data.deliveredBytes == Amount(events, Credits())
  {
    if events != [] {
      var before, e, now := events[..|events| - 1], events[|events| - 1].0, events[|events| - 1].1;
      AmountsOfTrace(phy, before, a, content, f);
      TcAmountsNext(Run(phy, before), e, now, a, content);
      DataAmountsNext(Run(phy, before), e, now, f);
      hide Note, At, BytesFrom, WithContent, Advertising, SendingOf, BytesOfFlow, DeliveringOf, Credits;
    }
  }

  // ------------------------------------------ what depends on a sender's last message

  /** The sender's messages so far, the last of which is compared with the new one. */
  ghost function Earlier(events: Trace): seq<(Tc, real)> {
    if events != [] && events[|events| - 1].0.HeardTc?
    then From(events[..|events| - 1], events[|events| - 1].0.tc.originator)
    else []
  }

  /** For every message but a sender's first the signed difference to the sequence
      number before. */
  ghost function Increments(events: Trace): seq<int> {
    if events == [] then []
    else
      var rest, past := Increments(events[..|events| - 1]), Earlier(events);
      if past == [] then rest else rest + [SignedDelta(past[|past| - 1].0.ansn, events[|events| - 1].0.tc.ansn)]
  }

  ghost function Named(neighbors: seq<Address>): set<Address> {
    set x | x in neighbors
  }

  /** How many messages advertise another set than the sender's message before. */
  ghost function Changes(events: Trace): nat {
    if events == [] then 0
    else
      var rest, past := Changes(events[..|events| - 1]), Earlier(events);
      if past != [] && Named(past[|past| - 1].0.neighbors) != Named(events[|events| - 1].0.tc.neighbors) then rest + 1 else rest
  }

  lemma IncrementsNext(s: State, first: map<Address, nat>, from: seq<(Tc, real)>, tc: Tc, now: real)
    requires Recorded(s, first, tc.originator, from)
    ensures NoteSerial(s.serials, tc, now).increments
      == s.serials.increments + if from == [] then [] else [SignedDelta(from[|from| - 1].0.ansn, tc.ansn)]
    ensures NoteSelectors(s.selectors, tc).churn
      == s.selectors.churn + if from != [] && Named(from[|from| - 1].0.neighbors) != Named(tc.neighbors) then 1 else 0
  {
    hide SignedDelta, GapsOf;
  }

  lemma OthersLeave(s: State, e: Event, now: real)
    requires !e.HeardTc?
    ensures Note(s, e, now).serials == s.serials && Note(s, e, now).selectors == s.selectors
  {
  }

  /** The increments are the signed differences in the order heard, and churn counts the changes. */
  lemma {:induction false} ChangesOfTrace(phy: bool, events: Trace)
    ensures Run(phy, events).serials.increments == Increments(events) && Run(phy, events).selectors.churn == Changes(events)
  {
    hide Recorded, SignedDelta, From;
    if events != [] {
      var before, e, now := events[..|events| - 1], events[|events| - 1].0, events[|events| - 1].1;
      ChangesOfTrace(phy, before);
      if e.HeardTc? {
        SendersRecorded(phy, before, e.tc.originator);
        IncrementsNext(Run(phy, before), FirstSerials(before), From(before, e.tc.originator), e.tc, now);
        hide NoteSerial, NoteSelectors, FirstSerials;
      } else {
        OthersLeave(Run(phy, before), e, now);
        hide Note;
      }
    }
  }

  // ----------------------------------------------------------------- sets

  ghost function Originating(): (Event, Address) -> bool {
    (e: Event, a: Address) => e.HeardTc? && e.tc.originator == a
  }

  ghost function Naming(): (Event, Address) -> bool {
    (e: Event, a: Address) => e.HeardTc? && a in e.tc.neighbors
  }

  ghost function SourceOf(): (Event, Address) -> bool {
    (e: Event, a: Address) => e.SentData? && e.flow.src == a
  }

  ghost function Linking(): (Event, (Address, Address)) -> bool {
    (e: Event, d: (Address, Address)) => e.HeardTc? && e.tc.originator == d.0 && d.1 in e.tc.neighbors
  }

  ghost function Passing(): (Event, (Mac, Mac)) -> bool {
    (e: Event, d: (Mac, Mac)) => e.ForwardedData? && (e.forwarder, e.nextHop) == d && d.0 != NO_MAC && d.1 != NO_MAC
  }

  lemma NeverNext<X(!new)>(events: Trace, about: (Event, X) -> bool, x: X)
    requires events != []
    ensures Never(events, about, x) <==> Never(events[..|events| - 1], about, x) && !about(events[|events| - 1].0, x)
  {
    var before := events[..|events| - 1];
    if Never(before, about, x) && !about(events[|events| - 1].0, x) {
      forall i | 0 <= i < |events| ensures !about(events[i].0, x) { if i < |before| { assert events[i] == before[i]; } }
    }
  }

  lemma RolesNext(s: State, e: Event, now: real, a: Address)
    ensures var d, n := s.addresses, Note(s, e, now).addresses;
      && (a in n.sentTc <==> a in d.sentTc || Originating()(e, a))
      && (a in n.inPayload <==> a in d.inPayload || Naming()(e, a))
      && (a in n.sentData <==> a in d.sentData || SourceOf()(e, a))
  {
    hide CountTc, NoteSerial, NoteSelectors, SeeLinks, NoteMessage, SendData, NoteAir, SeeAdvertised, See;
    if e.HeardTc? {
      SeeTcRoles(s, e.tc, now);
      SeeTcData(s.addresses, e.tc, now);
    }
    SeeOnly(s.addresses, a, now);
    if e.SentData? { SeeOnly(s.addresses.(sentData := s.addresses.sentData + {e.flow.src}), e.flow.src, now); }
  }

  lemma SeeOnly(d: Addresses, a: Address, now: real)
    ensures See(d, a, now).sentTc == d.sentTc && See(d, a, now).inPayload == d.inPayload && See(d, a, now).sentData == d.sentData
  {
  }

  lemma {:induction false} AdvertisedData(d: Addresses, neighbors: seq<Address>, now: real)
    ensures SeeAdvertised(d, neighbors, now).sentData == d.sentData
  {
    if neighbors != [] { AdvertisedData(d, neighbors[..|neighbors| - 1], now); }
  }

  lemma SeeTcData(d: Addresses, tc: Tc, now: real)
    ensures SeeTc(d, tc, now).sentData == d.sentData
  {
    AdvertisedData(See(d.(sentTc := d.sentTc + {tc.originator}), tc.originator, now), tc.neighbors, now);
    hide SeeAdvertised;
  }

  /** An address is in a role exactly when some observation puts it there. */
  lemma {:induction false} RolesOfTrace(phy: bool, events: Trace, a: Address)
    ensures var d := Run(phy, events).addresses;
      && (a in d.sentTc <==> !Never(events, Originating(), a))
      && (a in d.inPayload <==> !Never(events, Naming(), a))
      && (a in d.sentData <==> !Never(events, SourceOf(), a))
  {
    hide Never, Originating, Naming, SourceOf, Note;
    if events == [] {
      NothingYet<Address>(Originating(), a);
      NothingYet<Address>(Naming(), a);
      NothingYet<Address>(SourceOf(), a);
    } else {
      var before, e, now := events[..|events| - 1], events[|events| - 1].0, events[|events| - 1].1;
      RolesOfTrace(phy, before, a);
      RolesNext(Run(phy, before), e, now, a);
      NeverNext(events, Originating(), a);
      NeverNext(events, Naming(), a);
      NeverNext(events, SourceOf(), a);
    }
  }

  lemma NothingYet<X(!new)>(about: (Event, X) -> bool, x: X)
    ensures Never([], about, x)
  {
  }

  lemma PairsNext(s: State, e: Event, now: real, d: (Address, Address), p: (Mac, Mac))
    ensures d in Note(s, e, now).links.directed <==> d in s.links.directed || Linking()(e, d)
    ensures p in Note(s, e, now).air.forwards.pairs <==> p in s.air.forwards.pairs || Passing()(e, p)
  {
    if e.HeardTc? { SeeLinksAdds(s.links, e.tc.originator, e.tc.neighbors, now); }
    hide CountTc, NoteSerial, NoteSelectors, SeeTc, SeeLinks, SeeData, NoteMessage, Sent, Arrived, NoteFlight, NoteFirstHop, NoteFrame, NoteRelay;
  }

  /** Directed links are those advertised, and forwarder and next hop those of frames. */
  lemma {:induction false} PairsOfTrace(phy: bool, events: Trace, d: (Address, Address), p: (Mac, Mac))
    ensures d in Run(phy, events).links.directed <==> !Never(events, Linking(), d)
    ensures p in Run(phy, events).air.forwards.pairs <==> !Never(events, Passing(), p)
  {
    hide Never, Linking, Passing, Note;
    if events == [] {
      NothingYet(Linking(), d);
      NothingYet(Passing(), p);
    } else {
      var before, e, now := events[..|events| - 1], events[|events| - 1].0, events[|events| - 1].1;
      PairsOfTrace(phy, before, d, p);
      PairsNext(Run(phy, before), e, now, d, p);
      NeverNext(events, Linking(), d);
      NeverNext(events, Passing(), p);
    }
  }
}
