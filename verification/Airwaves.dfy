/** What the feature collector keeps of the data packets and of the frames on the air. */
module Airwaves {
  import opened Edges
  import opened MapSums

  type Mac = nat

  /** The all-zero MAC address. */
  const NO_MAC: Mac := 0

  datatype Flow = Flow(src: Address, dst: Address)

  // ------------------------------------------------------------ data packets

  /** Packets and bytes sent and delivered, and the samples taken at deliveries. */
  datatype Data = Data(
    packets: nat, bytes: nat, deliveredBytes: nat,
    sent: map<Flow, nat>, delivered: map<Flow, nat>,
    latencies: seq<real>, hopCounts: seq<int>,
    lastArrival: map<Flow, real>, jitterSamples: seq<real>,
    flowTxBytes: map<Flow, nat>, flowDelays: map<Flow, seq<real>>, flowJitters: map<Flow, seq<real>>)

  const NO_DATA := Data(0, 0, 0, map[], map[], [], [], map[], [], map[], map[], map[])

  function Distance(x: real, y: real): real {
    if x < y then y - x else x - y
  }

  /** The counters after a packet's first transmission. */
  function Sent(d: Data, f: Flow, bytes: nat): Data {
    d.(packets := d.packets + 1, bytes := d.bytes + bytes, sent := Add(d.sent, f, 1), flowTxBytes := Add(d.flowTxBytes, f, bytes))
  }

  function CountHops(d: Data, ttl: nat): Data {
    d.(hopCounts := if 1 <= ttl <= 64 then d.hopCounts + [65 - ttl] else d.hopCounts)
  }

  function CountArrival(d: Data, f: Flow, latency: real): Data {
    d.(delivered := Add(d.delivered, f, 1), latencies := d.latencies + [latency])
  }

  function SampleJitter(d: Data, f: Flow, latency: real): Data {
    if f in d.lastArrival then
      var sample := Distance(latency, d.lastArrival[f]);
      d.(jitterSamples := d.jitterSamples + [sample], flowJitters := d.flowJitters[f := List(d.flowJitters, f) + [sample]])
    else d
  }

  function NoteDelay(d: Data, f: Flow, latency: real): Data {
    d.(lastArrival := d.lastArrival[f := latency], flowDelays := d.flowDelays[f := List(d.flowDelays, f) + [latency]])
  }

  /** The counters after a packet's last hop, before its bytes are credited. */
  function Arrived(d: Data, f: Flow, ttl: nat, latency: real): Data {
    NoteDelay(SampleJitter(CountArrival(CountHops(d, ttl), f, latency), f, latency), f, latency)
  }

  function Credit(d: Data, bytes: nat): Data {
    d.(deliveredBytes := d.deliveredBytes + bytes)
  }

  /** The per-flow sample lists go with the per-flow counts. */
  ghost predicate FlowSampled(d: Data, f: Flow) {
    && (f in d.lastArrival <==> At(d.delivered, f) > 0)
    && |List(d.flowDelays, f)| == At(d.delivered, f)
    && |List(d.flowJitters, f)| == if At(d.delivered, f) > 0 then At(d.delivered, f) - 1 else 0
  }

  /** Every flow with a delivery has one jitter sample fewer than deliveries; the samples are in range. */
  ghost predicate InTotal(d: Data) {
    && |d.jitterSamples| + |d.lastArrival| == |d.latencies|
    && (forall i :: 0 <= i < |d.jitterSamples| ==> d.jitterSamples[i] >= 0.0)
    && (forall i :: 0 <= i < |d.hopCounts| ==> 1 <= d.hopCounts[i] <= 64)
  }

  /** Packets and bytes are the sums over flows, and so are the samples. */
  ghost predicate Summed(d: Data) {
    && SumBy(d.sent, Each()) == d.packets && SumBy(d.flowTxBytes, Each()) == d.bytes
    && SumBy(d.delivered, Each()) == |d.latencies| == SumBy(d.flowDelays, Length())
    && SumBy(d.flowJitters, Length()) == |d.jitterSamples|
  }

  ghost predicate Sampled(d: Data) {
    InTotal(d) && Summed(d) && forall f :: FlowSampled(d, f)
  }

  lemma DistanceNonNegative(x: real, y: real)
    ensures Distance(x, y) >= 0.0
  {
  }

  lemma ArrivedTotals(d: Data, f: Flow, ttl: nat, latency: real)
    requires InTotal(d)
    ensures InTotal(Arrived(d, f, ttl, latency))
  {
    hide At, List, Add, Distance;
    SizePut(d.lastArrival, f, latency);
    if f in d.lastArrival { DistanceNonNegative(latency, d.lastArrival[f]); }
  }

  lemma ArrivedSums(d: Data, f: Flow, ttl: nat, latency: real)
    requires Summed(d)
    ensures Summed(Arrived(d, f, ttl, latency))
  {
    hide At, List, Add, Distance, SumBy;
    SumAdd(d.delivered, f, 1);
    SumPush(d.flowDelays, f, latency);
    if f in d.lastArrival { SumPush(d.flowJitters, f, Distance(latency, d.lastArrival[f])); }
  }

  lemma ArrivedFlow(d: Data, f: Flow, ttl: nat, latency: real, g: Flow)
    requires FlowSampled(d, g)
    ensures FlowSampled(Arrived(d, f, ttl, latency), g)
  {
    hide Distance;
    var e := Arrived(d, f, ttl, latency);
    assert At(e.delivered, g) == At(d.delivered, g) + if g == f then 1 else 0;
    assert List(e.flowDelays, g) == if g == f then List(d.flowDelays, g) + [latency] else List(d.flowDelays, g);
    assert |List(e.flowJitters, g)| == |List(d.flowJitters, g)| + if g == f && f in d.lastArrival then 1 else 0;
  }

  /** One more delivery keeps counts and samples together. */
  lemma ArrivedSamples(d: Data, f: Flow, ttl: nat, latency: real)
    requires Sampled(d)
    ensures Sampled(Arrived(d, f, ttl, latency))
  {
    ArrivedTotals(d, f, ttl, latency);
    ArrivedSums(d, f, ttl, latency);
    hide Arrived, FlowSampled, InTotal, Summed;
    forall g
      ensures FlowSampled(Arrived(d, f, ttl, latency), g)
    {
      ArrivedFlow(d, f, ttl, latency, g);
    }
  }

  lemma SentSamples(d: Data, f: Flow, bytes: nat)
    requires Sampled(d)
    ensures Sampled(Sent(d, f, bytes))
  {
    hide SumBy, Add;
    SumAdd(d.sent, f, 1);
    SumAdd(d.flowTxBytes, f, bytes);
    forall g
      ensures FlowSampled(Sent(d, f, bytes), g)
    {
      assert FlowSampled(d, g);
    }
  }

  lemma CreditSamples(d: Data, bytes: nat)
    requires Sampled(d)
    ensures Sampled(Credit(d, bytes))
  {
    forall g
      ensures FlowSampled(Credit(d, bytes), g)
    {
      assert FlowSampled(d, g);
    }
  }

  // ------------------------------------------------------------------ flows

  /** The flows seen, with the times of their first and last transmissions. */
  datatype Flights = Flights(pairs: set<Flow>, firstTx: map<Flow, real>, lastTx: map<Flow, real>)

  const NO_FLIGHTS := Flights({}, map[], map[])

  function NoteFlight(x: Flights, f: Flow, now: real): Flights {
    Flights(x.pairs + {f}, if f in x.firstTx then x.firstTx else x.firstTx[f := now], x.lastTx[f := now])
  }

  /** The flows with times are those with packets and those with bytes. */
  ghost predicate FlightsAgree(x: Flights, d: Data) {
    x.pairs == x.firstTx.Keys == x.lastTx.Keys == d.sent.Keys == d.flowTxBytes.Keys
  }

  // -------------------------------------------------------------- first hops

  /** For each source the first-hop MACs of its deliveries, how often one differed
      from the last, and the last. */
  datatype FirstHops = FirstHops(macs: map<Address, set<Mac>>, changes: map<Address, nat>, last: map<Address, Mac>)

  const NO_FIRST_HOPS := FirstHops(map[], map[], map[])

  function NoteFirstHop(h: FirstHops, src: Address, mac: Mac): FirstHops {
    if mac == NO_MAC then h
    else
      FirstHops(h.macs[src := Members(h.macs, src) + {mac}],
                if src in h.last && h.last[src] != mac then Add(h.changes, src, 1) else h.changes,
                h.last[src := mac])
  }

  /** A source has at most one first hop more than changes, and more than one exactly when it changed. */
  ghost predicate SourceAgrees(h: FirstHops, src: Address) {
    && (src in h.macs <==> src in h.last)
    && (src in h.changes ==> src in h.macs && h.changes[src] > 0)
    && (src in h.macs && src in h.last ==> h.last[src] in h.macs[src] && NO_MAC !in h.macs[src])
    && |Members(h.macs, src)| <= At(h.changes, src) + 1
    && (At(h.changes, src) > 0 <==> |Members(h.macs, src)| > 1)
  }

  ghost predicate FirstHopsAgree(h: FirstHops) {
    forall src :: SourceAgrees(h, src)
  }

  lemma OneMore(s: set<Mac>, last: Mac, mac: Mac)
    requires last in s
    ensures |s| <= |s + {mac}| <= |s| + 1
    ensures mac == last ==> s + {mac} == s
    ensures mac != last ==> |s + {mac}| > 1
  {
    if mac in s {
      assert s + {mac} == s;
      if mac != last { assert |s - {last}| > 0 by { assert mac in s - {last}; } }
    }
  }

  lemma NoteFirstHopAgrees(h: FirstHops, src: Address, mac: Mac)
    requires FirstHopsAgree(h)
    ensures FirstHopsAgree(NoteFirstHop(h, src, mac))
  {
    var n := NoteFirstHop(h, src, mac);
    forall s
      ensures SourceAgrees(n, s)
    {
      assert SourceAgrees(h, s);
      if s == src && mac != NO_MAC && src in h.last { OneMore(h.macs[src], h.last[src], mac); }
    }
  }

  // ------------------------------------------------------------------ frames

  /** Retransmissions among the data frames, the busy intervals, and the spacing of
      all frames, as long as the PHY trace is available. */
  datatype Frames = Frames(available: bool, retransmitted: nat, dataFrames: nat, busy: seq<(real, real)>, spacing: seq<real>, lastEnd: real)

  function NoFrames(available: bool): Frames {
    Frames(available, 0, 0, [], [], -1.0)
  }

  function NoteFrame(x: Frames, duration: real, isData: bool, isRetry: bool, now: real): Frames {
    if !x.available then x
    else
      x.(busy := if duration > 0.0 then x.busy + [(now, now + duration)] else x.busy,
         spacing := if x.lastEnd >= 0.0 then x.spacing + [now - x.lastEnd] else x.spacing,
         lastEnd := now,
         dataFrames := if isData then x.dataFrames + 1 else x.dataFrames,
         retransmitted := if isData && isRetry then x.retransmitted + 1 else x.retransmitted)
  }

  ghost predicate FramesAgree(x: Frames) {
    && x.retransmitted <= x.dataFrames
    && (forall i :: 0 <= i < |x.busy| ==> x.busy[i].0 < x.busy[i].1)
    && (!x.available ==> x == NoFrames(false))
  }

  // ------------------------------------------------- relays of topology messages

  /** For each originator the sequence numbers heard, the MACs that sent a copy, and the greatest hop count. */
  datatype Relays = Relays(seqs: map<Address, set<nat>>, macs: map<Address, set<Mac>>, maxHop: map<Address, nat>)

  const NO_RELAYS := Relays(map[], map[], map[])

  function NoteRelay(r: Relays, originator: Address, msgSeq: nat, hops: nat, mac: Mac): Relays {
    Relays(r.seqs[originator := Members(r.seqs, originator) + {msgSeq}],
           if mac == NO_MAC then r.macs else r.macs[originator := Members(r.macs, originator) + {mac}],
           if originator !in r.maxHop || hops > r.maxHop[originator] then r.maxHop[originator := hops] else r.maxHop)
  }

  // ---------------------------------------------------------------- forwarding

  /** The pairs of forwarder and next hop, the last next hop for each destination,
      and the forwarders that changed one. */
  datatype Forwards = Forwards(pairs: set<(Mac, Mac)>, last: map<(Mac, Address), Mac>, changed: set<Mac>)

  const NO_FORWARDS := Forwards({}, map[], {})

  function NoteForward(w: Forwards, forwarder: Mac, nextHop: Mac, dst: Address): Forwards {
    if forwarder == NO_MAC || nextHop == NO_MAC then w
    else
      var key := (forwarder, dst);
      Forwards(w.pairs + {(forwarder, nextHop)}, w.last[key := nextHop],
               if key in w.last && w.last[key] != nextHop then w.changed + {forwarder} else w.changed)
  }

  // ------------------------------------------------------------------ together

  datatype Air = Air(data: Data, flights: Flights, firstHops: FirstHops, frames: Frames, relays: Relays, forwards: Forwards)

  function NoAir(available: bool): Air {
    Air(NO_DATA, NO_FLIGHTS, NO_FIRST_HOPS, NoFrames(available), NO_RELAYS, NO_FORWARDS)
  }

  ghost predicate AirAgrees(a: Air) {
    Sampled(a.data) && FlightsAgree(a.flights, a.data) && FirstHopsAgree(a.firstHops) && FramesAgree(a.frames)
  }

  lemma NoAirAgrees(available: bool)
    ensures AirAgrees(NoAir(available))
  {
  }

  function SendData(a: Air, f: Flow, bytes: nat, now: real): Air {
    a.(data := Sent(a.data, f, bytes), flights := NoteFlight(a.flights, f, now))
  }

  function DeliverData(a: Air, f: Flow, ttl: nat, latency: real, mac: Mac): Air {
    a.(data := Arrived(a.data, f, ttl, latency), firstHops := NoteFirstHop(a.firstHops, f.src, mac))
  }

  lemma NoteFlightAgrees(x: Flights, d: Data, f: Flow, bytes: nat, now: real)
    requires FlightsAgree(x, d)
    ensures FlightsAgree(NoteFlight(x, f, now), Sent(d, f, bytes))
  {
    assert NoteFlight(x, f, now).firstTx.Keys == x.firstTx.Keys + {f};
  }

  lemma SendAgrees(a: Air, f: Flow, bytes: nat, now: real)
    requires AirAgrees(a)
    ensures AirAgrees(SendData(a, f, bytes, now))
  {
    SentSamples(a.data, f, bytes);
    NoteFlightAgrees(a.flights, a.data, f, bytes, now);
    hide Sampled, FlightsAgree, FirstHopsAgree, FramesAgree, Sent, NoteFlight;
  }

  lemma ArrivedKeeps(d: Data, f: Flow, ttl: nat, latency: real)
    ensures var e := Arrived(d, f, ttl, latency);
      && e.packets == d.packets && e.bytes == d.bytes && e.deliveredBytes == d.deliveredBytes
      && e.sent == d.sent && e.flowTxBytes == d.flowTxBytes
      && e.delivered == Add(d.delivered, f, 1) && e.latencies == d.latencies + [latency]
  {
  }

  lemma DeliverAgrees(a: Air, f: Flow, ttl: nat, latency: real, mac: Mac)
    requires AirAgrees(a)
    ensures AirAgrees(DeliverData(a, f, ttl, latency, mac))
  {
    ArrivedSamples(a.data, f, ttl, latency);
    ArrivedKeeps(a.data, f, ttl, latency);
    NoteFirstHopAgrees(a.firstHops, f.src, mac);
    hide Sampled, Arrived, FirstHopsAgree, FramesAgree;
  }

  lemma CreditAgrees(a: Air, bytes: nat)
    requires AirAgrees(a)
    ensures AirAgrees(a.(data := Credit(a.data, bytes)))
  {
    CreditSamples(a.data, bytes);
    hide Sampled, FirstHopsAgree, FramesAgree;
  }

  lemma FrameAgrees(a: Air, duration: real, isData: bool, isRetry: bool, now: real)
    requires AirAgrees(a)
    ensures AirAgrees(a.(frames := NoteFrame(a.frames, duration, isData, isRetry, now)))
  {
    hide Sampled, FirstHopsAgree, FlightsAgree;
  }
}
