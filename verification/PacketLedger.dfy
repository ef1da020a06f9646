/** Correlating data packets between their first transmission and the last hop,
    and the observations that the trace callbacks hand to the collector. */
module PacketLedger {
  import opened Airwaves
  import opened Collector
  import opened CollectorTraces
  import opened Edges
  import opened MapSums

  datatype Key = Key(flow: Flow, ipId: nat)

  datatype Record = Record(firstSeen: real, lastSeen: real, bytes: nat, flow: Flow, firstHop: Mac, lastTtl: nat, observations: nat)

  /** An OLSR message of a packet, in the parts that are looked at. */
  datatype OlsrMessage = Hello | OfTc(tc: Tc, msgSeq: nat, hops: nat) | OfMid(size: nat) | OfHna(size: nat)

  /** What a data frame carries: OLSR messages, a packet of a measured flow, or neither. */
  datatype Payload = Opaque | Olsr(messages: seq<OlsrMessage>) | FlowData(key: Key, ttl: nat)

  /** isControl: an RTS, CTS or ACK. */
  datatype RadioFrame = RadioFrame(isControl: bool, isData: bool, isRetry: bool, duration: real, addr1: Mac, addr2: Mac, payload: Payload)

  /** The harness between callbacks: the packets on the air and the collector. */
  datatype Ledger = Ledger(rejected: bool, active: bool, onAir: map<Key, Record>, features: State) {
    function Counters(): Data {
      features.air.data
    }
  }

  /** A callback with what it is called with. */
  datatype Callback =
    | StartWindow
    | EndWindow
    | Reject
    | IpOlsr(messages: seq<OlsrMessage>, now: real)
    | IpTx(key: Key, bytes: nat, ttl: nat, node: Mac, now: real)      // node: the sender's MAC, NO_MAC if unknown
    | PhyTx(frame: RadioFrame, now: real)

  /** What the callbacks can look up: flow-destination MACs, and whether the PHY trace is connected. */
  datatype Setup = Setup(dstMac: map<Address, Mac>, phyAvailable: bool)

  function Started(setup: Setup): Ledger {
    Ledger(false, false, map[], Fresh(setup.phyAvailable))
  }

  // -------------------------------------------------- what is observed when

  /** The control messages observed in a packet; HELLO is not. */
  function ControlEvents(messages: seq<OlsrMessage>): seq<Event> {
    if messages == [] then []
    else
      var rest := ControlEvents(messages[1..]);
      match messages[0]
      case Hello => rest
      case OfTc(tc, _, _) => [HeardTc(tc)] + rest
      case OfMid(size) => [HeardMid(size)] + rest
      case OfHna(size) => [HeardHna(size)] + rest
  }

  /** The relayed messages observed in a frame, up to the first HELLO. */
  function RelayEvents(messages: seq<OlsrMessage>, transmitter: Mac): seq<Event> {
    if messages == [] || messages[0] == Hello then []
    else if messages[0].OfTc? then
      [RelayedTc(messages[0].tc.originator, messages[0].msgSeq, messages[0].hops, transmitter)] + RelayEvents(messages[1..], transmitter)
    else RelayEvents(messages[1..], transmitter)
  }

  /** The frame is the last hop of a packet that is on the air. */
  predicate LastHop(setup: Setup, onAir: map<Key, Record>, key: Key, addr1: Mac) {
    key.flow.dst in setup.dstMac && addr1 == setup.dstMac[key.flow.dst] && key in onAir
  }

  function Latency(r: Record, now: real): real {
    if now - r.firstSeen < 0.0 then 0.0 else now - r.firstSeen
  }

  function DeliveryEvents(r: Record, ttl: nat, now: real): seq<Event> {
    [DeliveredData(r.flow, ttl, Latency(r, now), r.firstHop), CreditedBytes(r.bytes)]
  }

  function LastHopEvents(setup: Setup, onAir: map<Key, Record>, key: Key, ttl: nat, addr1: Mac, now: real): seq<Event> {
    if LastHop(setup, onAir, key, addr1) then DeliveryEvents(onAir[key], ttl, now) else []
  }

  function FrameEvents(setup: Setup, onAir: map<Key, Record>, f: RadioFrame, now: real): seq<Event> {
    var seen := [SawFrame(f.duration, f.isData, f.isRetry)];
    if f.isControl then []
    else if !f.isData then seen
    else
      match f.payload
      case Opaque => seen
      case Olsr(messages) => RelayEvents(messages, f.addr2) + if Hello in messages then [] else seen
      case FlowData(key, ttl) => [ForwardedData(f.addr2, f.addr1, key.flow.dst)] + LastHopEvents(setup, onAir, key, ttl, f.addr1, now) + seen
  }

  /** The observations a callback hands to the collector. */
  function Observations(setup: Setup, l: Ledger, e: Callback): seq<Event> {
    if !l.active then []
    else
      match e
      case IpOlsr(messages, _) => ControlEvents(messages)
      case IpTx(key, bytes, _, _, _) => if key in l.onAir then [] else [SentData(key.flow, bytes)]
      case PhyTx(f, now) => if setup.phyAvailable then FrameEvents(setup, l.onAir, f, now) else []
      case _ => []
  }

  function Tracked(onAir: map<Key, Record>, key: Key, bytes: nat, ttl: nat, node: Mac, now: real): map<Key, Record> {
    if key !in onAir then onAir[key := Record(now, now, bytes, key.flow, NO_MAC, ttl, 1)]
    else
      var r := onAir[key];
      onAir[key := r.(lastSeen := now, lastTtl := ttl, observations := r.observations + 1,
                      firstHop := if r.firstHop == NO_MAC then node else r.firstHop)]
  }

  /** The frame ends a packet's way. */
  predicate Ends(setup: Setup, l: Ledger, f: RadioFrame) {
    l.active && setup.phyAvailable && !f.isControl && f.isData && f.payload.FlowData? && LastHop(setup, l.onAir, f.payload.key, f.addr1)
  }

  function OnAirAfter(setup: Setup, l: Ledger, e: Callback): map<Key, Record> {
    match e
    case IpTx(key, bytes, ttl, node, now) => if l.active then Tracked(l.onAir, key, bytes, ttl, node, now) else l.onAir
    case PhyTx(f, now) => if Ends(setup, l, f) then l.onAir - {f.payload.key} else l.onAir
    case _ => l.onAir
  }

  function Step(setup: Setup, l: Ledger, e: Callback): Ledger {
    match e
    case StartWindow => if l.rejected then l else Ledger(false, true, map[], Fresh(l.features.air.frames.available))
    case EndWindow => if l.rejected then l else l.(active := false, onAir := map[])
    case Reject => l.(rejected := true)
    case _ => l.(onAir := OnAirAfter(setup, l, e), features := NoteAll(l.features, Observations(setup, l, e), e.now))
  }

  function RunLedger(setup: Setup, l: Ledger, events: seq<Callback>): Ledger
    decreases |events|
  {
    if events == [] then l else RunLedger(setup, Step(setup, l, events[0]), events[1..])
  }

  /** The control messages of two packets in a row are those of both; one message is
      observed as what it is, a HELLO not at all. */
  lemma {:induction false} ControlEventsJoin(a: seq<OlsrMessage>, b: seq<OlsrMessage>, tc: Tc, msgSeq: nat, hops: nat, size: nat)
    ensures ControlEvents(a + b) == ControlEvents(a) + ControlEvents(b)
    ensures ControlEvents([]) == [] == ControlEvents([Hello])
    ensures ControlEvents([OfTc(tc, msgSeq, hops)]) == [HeardTc(tc)]
    ensures ControlEvents([OfMid(size)]) == [HeardMid(size)] && ControlEvents([OfHna(size)]) == [HeardHna(size)]
  {
    if a == [] {
      assert a + b == b;
    } else {
      ControlEventsJoin(a[1..], b, tc, msgSeq, hops, size);
      assert (a + b)[1..] == a[1..] + b;
    }
    assert forall m: OlsrMessage :: [m][1..] == [];
  }

  /** Relayed messages are observed as long as no HELLO came before. */
  lemma {:induction false} RelayEventsJoin(a: seq<OlsrMessage>, b: seq<OlsrMessage>, mac: Mac, tc: Tc, msgSeq: nat, hops: nat, size: nat)
    ensures RelayEvents(a + b, mac) == RelayEvents(a, mac) + if Hello in a then [] else RelayEvents(b, mac)
    ensures RelayEvents([], mac) == [] == RelayEvents([Hello], mac)
    ensures RelayEvents([OfTc(tc, msgSeq, hops)], mac) == [RelayedTc(tc.originator, msgSeq, hops, mac)]
    ensures RelayEvents([OfMid(size)], mac) == [] == RelayEvents([OfHna(size)], mac)
  {
    if a == [] {
      assert a + b == b;
    } else {
      RelayEventsJoin(a[1..], b, mac, tc, msgSeq, hops, size);
      assert (a + b)[1..] == a[1..] + b;
      assert a == [a[0]] + a[1..];
    }
    assert forall m: OlsrMessage :: [m][1..] == [];
  }

  /** The frame is one the PHY trace shows, and not a control frame. */
  ghost predicate Shown(setup: Setup, l: Ledger, e: Callback) {
    l.active && setup.phyAvailable && e.PhyTx? && !e.frame.isControl
  }

  /** What a callback has observed of frames: each frame shown, once, with what its
      header says, unless it carries a HELLO; a flow packet as forwarded from the
      transmitter to the receiver, before anything else. */
  lemma FramesObserved(setup: Setup, l: Ledger, e: Callback)
    requires e.PhyTx?
    ensures !Shown(setup, l, e) ==> Observations(setup, l, e) == []
    ensures Shown(setup, l, e) && !(e.frame.isData && e.frame.payload.Olsr? && Hello in e.frame.payload.messages) ==>
              var seen := Observations(setup, l, e);
              seen != [] && seen[|seen| - 1] == SawFrame(e.frame.duration, e.frame.isData, e.frame.isRetry)
              && (forall i :: 0 <= i < |seen| - 1 ==> !seen[i].SawFrame?)
    ensures Shown(setup, l, e) && e.frame.isData && e.frame.payload.Olsr? && Hello in e.frame.payload.messages ==>
              forall i :: 0 <= i < |Observations(setup, l, e)| ==> !Observations(setup, l, e)[i].SawFrame?
    ensures Shown(setup, l, e) && e.frame.isData && e.frame.payload.Olsr? ==>
              RelayEvents(e.frame.payload.messages, e.frame.addr2) <= Observations(setup, l, e)
    ensures Shown(setup, l, e) && e.frame.isData && e.frame.payload.FlowData? ==>
              var seen := Observations(setup, l, e);
              seen != [] && seen[0] == ForwardedData(e.frame.addr2, e.frame.addr1, e.frame.payload.key.flow.dst)
              && (forall i :: 0 < i < |seen| ==> !seen[i].ForwardedData?)
    ensures Shown(setup, l, e) && !(e.frame.isData && e.frame.payload.FlowData?) ==>
              forall i :: 0 <= i < |Observations(setup, l, e)| ==> !Observations(setup, l, e)[i].ForwardedData?
  {
    if e.frame.payload.Olsr? { RelaysOnly(e.frame.payload.messages, e.frame.addr2); }
    hide Latency, LastHop, RelayEvents;
  }

  lemma {:induction false} RelaysOnly(messages: seq<OlsrMessage>, transmitter: Mac)
    ensures forall i :: 0 <= i < |RelayEvents(messages, transmitter)| ==> RelayEvents(messages, transmitter)[i].RelayedTc?
  {
    if messages != [] { RelaysOnly(messages[1..], transmitter); }
  }

  // ------------------------------------- the collector's state is that of a trace

  /** The trace of observations since the last reset. */
  function TraceAfter(setup: Setup, l: Ledger, past: Trace, e: Callback): Trace {
    match e
    case StartWindow => if l.rejected then past else []
    case EndWindow => past
    case Reject => past
    case _ => past + Stamped(Observations(setup, l, e), e.now)
  }

  function Observed(setup: Setup, l: Ledger, past: Trace, events: seq<Callback>): Trace
    decreases |events|
  {
    if events == [] then past
    else Observed(setup, Step(setup, l, events[0]), TraceAfter(setup, l, past, events[0]), events[1..])
  }

  lemma StepRuns(setup: Setup, l: Ledger, past: Trace, e: Callback)
    requires l.features == Run(setup.phyAvailable, past) && l.features.air.frames.available == setup.phyAvailable
    ensures Step(setup, l, e).features == Run(setup.phyAvailable, TraceAfter(setup, l, past, e))
  {
    hide Observations, NoteAll, Stamped;
    if !e.StartWindow? && !e.EndWindow? && !e.Reject? {
      NoteAllRuns(setup.phyAvailable, past, Observations(setup, l, e), e.now);
      hide Run;
    }
  }

  lemma NoteKeepsPhy(s: State, e: Event, now: real)
    ensures Note(s, e, now).air.frames.available == s.air.frames.available
  {
    hide NoteSerial, NoteSelectors, SeeTc, SeeLinks, NoteMessage, Arrived, Sent, NoteFlight, NoteFirstHop, NoteRelay, NoteForward;
  }

  lemma {:induction false} RunKeepsPhy(phy: bool, events: Trace)
    ensures Run(phy, events).air.frames.available == phy
  {
    if events != [] {
      RunKeepsPhy(phy, events[..|events| - 1]);
      NoteKeepsPhy(Run(phy, events[..|events| - 1]), events[|events| - 1].0, events[|events| - 1].1);
      hide Note;
    }
  }

  lemma {:induction false} FeaturesFollow(setup: Setup, l: Ledger, past: Trace, events: seq<Callback>)
    requires l.features == Run(setup.phyAvailable, past)
    ensures RunLedger(setup, l, events).features == Run(setup.phyAvailable, Observed(setup, l, past, events))
    decreases |events|
  {
    hide Run, Step, TraceAfter;
    if events != [] {
      RunKeepsPhy(setup.phyAvailable, past);
      StepRuns(setup, l, past, events[0]);
      FeaturesFollow(setup, Step(setup, l, events[0]), TraceAfter(setup, l, past, events[0]), events[1..]);
    }
  }

  /** Whatever callbacks fire, the collector is as after a trace of the observations
      since its last reset, and its redundant fields agree. */
  lemma FeaturesAreTraced(setup: Setup, events: seq<Callback>)
    ensures var l, trace := RunLedger(setup, Started(setup), events), Observed(setup, Started(setup), [], events);
      && l.features == Run(setup.phyAvailable, trace)
      && Agree(l.features, FirstSerials(trace))
  {
    hide RunLedger, Observed, Agree;
    FeaturesFollow(setup, Started(setup), [], events);
    TracesAgree(setup.phyAvailable, Observed(setup, Started(setup), [], events));
  }

  // ---------------------------------------------------------- conservation

  /** The keys of the flow still on the air. */
  ghost function InFlight(onAir: map<Key, Record>, f: Flow): set<Key> {
    set k | k in onAir && k.flow == f
  }

  /** The bytes of the packets still on the air. */
  ghost function Bytes(onAir: map<Key, Record>): nat {
    SumNonNegative(onAir, (r: Record) => r.bytes);
    SumBy(onAir, (r: Record) => r.bytes)
  }

  /** While a window is open, what was sent is either delivered or on the air. */
  ghost predicate Balanced(onAir: map<Key, Record>, d: Data) {
    && (forall k :: k in onAir ==> onAir[k].flow == k.flow)
    && (forall f :: At(d.sent, f) == At(d.delivered, f) + |InFlight(onAir, f)|)
    && d.bytes == d.deliveredBytes + Bytes(onAir)
    && d.packets == |d.latencies| + |onAir|
  }

  /** Nothing is delivered that was not sent, and nothing before it was. */
  ghost predicate WithinSent(d: Data) {
    && d.deliveredBytes <= d.bytes
    && (forall f :: At(d.delivered, f) <= At(d.sent, f))
    && (forall i :: 0 <= i < |d.latencies| ==> d.latencies[i] >= 0.0)
  }

  ghost predicate Inv(l: Ledger) {
    (l.active ==> Balanced(l.onAir, l.Counters())) && (!l.active ==> l.onAir == map[]) && Sampled(l.Counters()) && WithinSent(l.Counters())
  }

  lemma InFlightPut(onAir: map<Key, Record>, key: Key, r: Record, f: Flow)
    requires key !in onAir
    ensures |InFlight(onAir[key := r], f)| == |InFlight(onAir, f)| + if f == key.flow then 1 else 0
  {
    assert InFlight(onAir[key := r], f) == InFlight(onAir, f) + if f == key.flow then {key} else {};
  }

  lemma SentBalances(onAir: map<Key, Record>, d: Data, key: Key, r: Record)
    requires Balanced(onAir, d) && key !in onAir && r.flow == key.flow
    ensures Balanced(onAir[key := r], Sent(d, key.flow, r.bytes))
  {
    hide InFlight;
    var data := Sent(d, key.flow, r.bytes);
    forall f
      ensures At(data.sent, f) == At(data.delivered, f) + |InFlight(onAir[key := r], f)|
    {
      InFlightPut(onAir, key, r, f);
    }
    SumPut(onAir, (r: Record) => r.bytes, key, r);
    SizePut(onAir, key, r);
  }

  lemma SeenAgainBalances(onAir: map<Key, Record>, d: Data, key: Key, r: Record)
    requires Balanced(onAir, d) && key in onAir && r.flow == key.flow && r.bytes == onAir[key].bytes
    ensures Balanced(onAir[key := r], d)
  {
    forall f
      ensures InFlight(onAir[key := r], f) == InFlight(onAir, f)
    {
    }
    SumPut(onAir, (r: Record) => r.bytes, key, r);
    SizePut(onAir, key, r);
  }

  lemma InFlightTaken(onAir: map<Key, Record>, key: Key, f: Flow)
    requires key in onAir
    ensures |InFlight(onAir, f)| == |InFlight(onAir - {key}, f)| + if f == key.flow then 1 else 0
    ensures |onAir - {key}| == |onAir| - 1
  {
    assert InFlight(onAir, f) == InFlight(onAir - {key}, f) + if f == key.flow then {key} else {};
    var rest := onAir - {key};
    assert onAir.Keys == rest.Keys + {key} && |rest.Keys| == |rest| && |onAir.Keys| == |onAir|;
  }

  lemma DeliveredBalances(onAir: map<Key, Record>, d: Data, key: Key, ttl: nat, latency: real)
    requires Balanced(onAir, d) && key in onAir
    ensures Balanced(onAir - {key}, Credit(Arrived(d, key.flow, ttl, latency), onAir[key].bytes))
  {
    ArrivedKeeps(d, key.flow, ttl, latency);
    hide Arrived, InFlight;
    var data := Credit(Arrived(d, key.flow, ttl, latency), onAir[key].bytes);
    forall f
      ensures At(data.sent, f) == At(data.delivered, f) + |InFlight(onAir - {key}, f)|
    {
      InFlightTaken(onAir, key, f);
    }
    InFlightTaken(onAir, key, key.flow);
    SumTake(onAir, (r: Record) => r.bytes, key);
  }

  lemma BalancedWithinSent(onAir: map<Key, Record>, d: Data)
    requires Balanced(onAir, d) && forall i :: 0 <= i < |d.latencies| ==> d.latencies[i] >= 0.0
    ensures WithinSent(d)
  {
  }

  /** The observation leaves the data counters alone. */
  predicate Quiet(e: Event) {
    !e.SentData? && !e.DeliveredData? && !e.CreditedBytes?
  }

  lemma QuietStep(s: State, e: Event, now: real)
    requires Quiet(e)
    ensures Note(s, e, now).air.data == s.air.data
  {
    hide NoteSerial, NoteSelectors, SeeTc, SeeLinks, NoteMessage, NoteFrame, NoteRelay, NoteForward;
  }

  lemma {:induction false} QuietKeepsData(s: State, es: seq<Event>, now: real)
    requires forall i :: 0 <= i < |es| ==> Quiet(es[i])
    ensures NoteAll(s, es, now).air.data == s.air.data
    decreases |es|
  {
    hide Note, Quiet;
    if es != [] {
      QuietStep(s, es[0], now);
      QuietKeepsData(Note(s, es[0], now), es[1..], now);
    }
  }

  lemma {:induction false} ControlIsQuiet(messages: seq<OlsrMessage>)
    ensures forall i :: 0 <= i < |ControlEvents(messages)| ==> Quiet(ControlEvents(messages)[i])
  {
    if messages != [] { ControlIsQuiet(messages[1..]); }
  }

  lemma {:induction false} RelaysAreQuiet(messages: seq<OlsrMessage>, transmitter: Mac)
    ensures forall i :: 0 <= i < |RelayEvents(messages, transmitter)| ==> Quiet(RelayEvents(messages, transmitter)[i])
  {
    if messages != [] { RelaysAreQuiet(messages[1..], transmitter); }
  }

  lemma NoteOne(s: State, e: Event, now: real)
    ensures NoteAll(s, [e], now) == Note(s, e, now)
  {
    hide Note;
    assert [e][1..] == [];
  }

  lemma DeliveryData(s: State, r: Record, ttl: nat, now: real)
    ensures NoteAll(s, DeliveryEvents(r, ttl, now), now).air.data == Credit(Arrived(s.air.data, r.flow, ttl, Latency(r, now)), r.bytes)
  {
    hide Arrived, NoteFirstHop, Latency;
    var es := DeliveryEvents(r, ttl, now);
    assert es[1..] == [es[1]];
    var t := Note(s, es[0], now);
    NoteOne(t, es[1], now);
    assert t.air.data == Arrived(s.air.data, r.flow, ttl, Latency(r, now));
  }

  /** A frame moves the data counters only when it ends a packet's way. */
  lemma FrameData(setup: Setup, l: Ledger, f: RadioFrame, now: real)
    requires l.active && setup.phyAvailable
    ensures NoteAll(l.features, FrameEvents(setup, l.onAir, f, now), now).air.data
      == if Ends(setup, l, f) then Credit(Arrived(l.Counters(), l.onAir[f.payload.key].flow, f.payload.ttl, Latency(l.onAir[f.payload.key], now)),
                                          l.onAir[f.payload.key].bytes)
         else l.Counters()
  {
    hide Note, Latency, Arrived, NoteAll;
    var seen := [SawFrame(f.duration, f.isData, f.isRetry)];
    if Ends(setup, l, f) {
      var r := l.onAir[f.payload.key];
      var first, middle := [ForwardedData(f.addr2, f.addr1, f.payload.key.flow.dst)], DeliveryEvents(r, f.payload.ttl, now);
      NoteAppend(l.features, first + middle, seen, now);
      NoteAppend(l.features, first, middle, now);
      var s := NoteAll(l.features, first, now);
      QuietKeepsData(l.features, first, now);
      DeliveryData(s, r, f.payload.ttl, now);
      QuietKeepsData(NoteAll(s, middle, now), seen, now);
    } else {
      if f.payload.Olsr? { RelaysAreQuiet(f.payload.messages, f.addr2); }
      QuietKeepsData(l.features, FrameEvents(setup, l.onAir, f, now), now);
    }
  }

  lemma TxKeeps(setup: Setup, l: Ledger, e: Callback)
    requires Inv(l) && e.IpTx? && l.active
    ensures Inv(Step(setup, l, e))
  {
    hide Balanced, Sampled, Note;
    var next := Step(setup, l, e);
    RecordsKeyed(l, e.key);
    if e.key in l.onAir {
      SeenAgainBalances(l.onAir, l.Counters(), e.key, next.onAir[e.key]);
    } else {
      SentAdds(l.features, e.key.flow, e.bytes, e.now);
      SentBalances(l.onAir, l.Counters(), e.key, next.onAir[e.key]);
      SentSamples(l.Counters(), e.key.flow, e.bytes);
    }
    BalancedWithinSent(next.onAir, next.Counters());
  }

  lemma SentAdds(s: State, f: Flow, bytes: nat, now: real)
    ensures NoteAll(s, [SentData(f, bytes)], now).air.data == Sent(s.air.data, f, bytes)
  {
    hide SeeData;
    NoteOne(s, SentData(f, bytes), now);
  }

  lemma RecordsKeyed(l: Ledger, key: Key)
    requires Balanced(l.onAir, l.Counters())
    ensures key in l.onAir ==> l.onAir[key].flow == key.flow
  {
  }

  lemma LatencyNonNegative(r: Record, now: real)
    ensures Latency(r, now) >= 0.0
  {
  }

  lemma PhyKeeps(setup: Setup, l: Ledger, e: Callback)
    requires Inv(l) && e.PhyTx? && l.active && setup.phyAvailable
    ensures Inv(Step(setup, l, e))
  {
    hide Balanced, Sampled, FrameEvents, NoteAll, Arrived, Latency;
    FrameData(setup, l, e.frame, e.now);
    if Ends(setup, l, e.frame) {
      var next, key := Step(setup, l, e), e.frame.payload.key;
      var r := l.onAir[key];
      RecordsKeyed(l, key);
      LatencyNonNegative(r, e.now);
      DeliveredBalances(l.onAir, l.Counters(), key, e.frame.payload.ttl, Latency(r, e.now));
      ArrivedSamples(l.Counters(), key.flow, e.frame.payload.ttl, Latency(r, e.now));
      CreditSamples(Arrived(l.Counters(), key.flow, e.frame.payload.ttl, Latency(r, e.now)), r.bytes);
      ArrivedKeeps(l.Counters(), key.flow, e.frame.payload.ttl, Latency(r, e.now));
      BalancedWithinSent(next.onAir, next.Counters());
    }
  }

  lemma NothingObserved(setup: Setup, l: Ledger, e: Callback)
    requires e.IpOlsr? || e.IpTx? || e.PhyTx?
    requires !l.active || (e.PhyTx? && !setup.phyAvailable)
    ensures Step(setup, l, e) == l
  {
  }

  lemma OlsrKeeps(setup: Setup, l: Ledger, e: Callback)
    requires Inv(l) && e.IpOlsr? && l.active
    ensures Inv(Step(setup, l, e))
  {
    hide NoteAll, ControlEvents, Balanced, Sampled, WithinSent, Quiet;
    ControlIsQuiet(e.messages);
    QuietKeepsData(l.features, ControlEvents(e.messages), e.now);
  }

  lemma StepKeeps(setup: Setup, l: Ledger, e: Callback)
    requires Inv(l)
    ensures Inv(Step(setup, l, e))
  {
    hide Balanced, Sampled, WithinSent;
    match e
    case StartWindow => NothingBalanced();
    case EndWindow =>
    case Reject =>
    case _ =>
      hide Step, Inv;
      if !l.active || (e.PhyTx? && !setup.phyAvailable) {
        NothingObserved(setup, l, e);
      } else if e.IpOlsr? {
        OlsrKeeps(setup, l, e);
      } else if e.IpTx? {
        TxKeeps(setup, l, e);
      } else {
        PhyKeeps(setup, l, e);
      }
  }

  lemma NothingBalanced()
    ensures Balanced(map[], NO_DATA) && Sampled(NO_DATA) && WithinSent(NO_DATA)
  {
    hide Sampled, SumBy, InFlight;
    NoAirAgrees(true);
    NothingInFlight();
  }

  lemma NothingInFlight()
    ensures forall f :: |InFlight(map[], f)| == 0
    ensures Bytes(map[]) == 0
  {
    forall f
      ensures |InFlight(map[], f)| == 0
    {
      assert InFlight(map[], f) == {};
    }
  }

  lemma {:induction false} RunKeeps(setup: Setup, l: Ledger, events: seq<Callback>)
    requires Inv(l)
    ensures Inv(RunLedger(setup, l, events))
    decreases |events|
  {
    hide Step, Inv;
    if events != [] {
      StepKeeps(setup, l, events[0]);
      RunKeeps(setup, Step(setup, l, events[0]), events[1..]);
    }
  }

  function DeliveryRatio(delivered: nat, sent: nat): real {
    if sent == 0 then 0.0 else delivered as real / sent as real
  }

  /** After any callbacks since the program started, the ledger balances and delivery ratios lie in [0, 1]. */
  lemma PacketsAreConserved(setup: Setup, events: seq<Callback>, f: Flow)
    ensures var l := RunLedger(setup, Started(setup), events);
      && Inv(l)
      && 0.0 <= DeliveryRatio(At(l.Counters().delivered, f), At(l.Counters().sent, f)) <= 1.0
      && 0.0 <= DeliveryRatio(l.Counters().deliveredBytes, l.Counters().bytes) <= 1.0
  {
    hide Balanced, Sampled, RunLedger;
    NothingBalanced();
    RunKeeps(setup, Started(setup), events);
    var l := RunLedger(setup, Started(setup), events);
    UnitRatio(At(l.Counters().delivered, f), At(l.Counters().sent, f));
    UnitRatio(l.Counters().deliveredBytes, l.Counters().bytes);
  }

  lemma UnitRatio(a: nat, b: nat)
    requires a <= b
    ensures 0.0 <= DeliveryRatio(a, b) <= 1.0
  {
  }
}
