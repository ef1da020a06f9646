/** The harness callbacks, each one step of the ledger. */
module PacketHarness {
  import opened Airwaves
  import opened CollectorTraces
  import opened Edges
  import opened FeatureCollectors
  import opened PacketLedger

  class Harness {
    const setup: Setup
    const features: FeatureCollector
    var runRejected: bool
    var featuresActive: bool
    var firstOnAirByFlowIpId: map<Key, Record>

    function Value(): Ledger
      reads this, features
    {
      Ledger(runRejected, featuresActive, firstOnAirByFlowIpId, features.Snapshot())
    }

    constructor (setup: Setup)
      ensures Value() == Started(setup) && this.setup == setup && fresh(features)
    {
      this.setup := setup;
      features := new FeatureCollector();
      runRejected, featuresActive := false, false;
      firstOnAirByFlowIpId := map[];
      new;
      features.SetPhyAvailable(setup.phyAvailable);
    }

    method RejectRun()
      modifies `runRejected
      ensures Value() == Step(setup, old(Value()), Reject)
    {
      runRejected := true;
    }

    method StartMeasurementWindow(now: real)
      modifies this, features
      ensures Value() == Step(setup, old(Value()), StartWindow)
      ensures !runRejected ==> features.winStart == now
    {
      if runRejected { return; }
      firstOnAirByFlowIpId := map[];
      features.Reset(now);
      featuresActive := true;
    }

    method EndMeasurementWindow()
      modifies this
      ensures Value() == Step(setup, old(Value()), EndWindow)
    {
      if runRejected { return; }
      featuresActive := false;
      firstOnAirByFlowIpId := map[];
    }

    /** The OLSR messages of a packet, HELLO among them, one by one. */
    method TraceOlsrPacket(messages: seq<OlsrMessage>, now: real)
      modifies features
      ensures Value() == Step(setup, old(Value()), IpOlsr(messages, now))
    {
      hide Note, FeatureCollector.Snapshot;
      var i := 0;
      while i < |messages|
        invariant i <= |messages|
        invariant featuresActive ==> NoteAll(features.Snapshot(), ControlEvents(messages[i..]), now)
                                     == NoteAll(old(features.Snapshot()), ControlEvents(messages), now)
        invariant !featuresActive ==> features.Snapshot() == old(features.Snapshot())
      {
        assert messages[i..][1..] == messages[i + 1..];
        if featuresActive { ObserveMessage(messages[i], messages[i..], now); }
        i := i + 1;
      }
    }

    method ObserveMessage(m: OlsrMessage, ghost left: seq<OlsrMessage>, now: real)
      requires left != [] && left[0] == m
      modifies features
      ensures NoteAll(features.Snapshot(), ControlEvents(left[1..]), now) == NoteAll(old(features.Snapshot()), ControlEvents(left), now)
    {
      hide Note, FeatureCollector.Snapshot;
      match m {
        case Hello =>
        case OfTc(tc, _, _) => features.ObserveTc(tc, now);
        case OfMid(size) => features.ObserveMid(size, now);
        case OfHna(size) => features.ObserveHna(size, now);
      }
      ghost var rest := ControlEvents(left[1..]);
      assert m != Hello ==> ControlEvents(left)[1..] == rest;
    }

    method TraceDataPacket(key: Key, bytes: nat, ttl: nat, node: Mac, now: real)
      modifies this, features
      ensures Value() == Step(setup, old(Value()), IpTx(key, bytes, ttl, node, now))
    {
      hide Note, FeatureCollector.Snapshot;
      if !featuresActive { return; }
      if key !in firstOnAirByFlowIpId {
        NoteOne(features.Snapshot(), SentData(key.flow, bytes), now);
        firstOnAirByFlowIpId := firstOnAirByFlowIpId[key := Record(now, now, bytes, key.flow, NO_MAC, ttl, 1)];
        features.ObserveDataSentOnAir(key.flow, bytes, now);
      } else {
        var r := firstOnAirByFlowIpId[key];
        r := r.(lastSeen := now, lastTtl := ttl, observations := r.observations + 1);
        if r.firstHop == NO_MAC { r := r.(firstHop := node); }
        firstOnAirByFlowIpId := firstOnAirByFlowIpId[key := r];
      }
    }

    /** Records relayed messages until a HELLO, and tells whether there was one. */
    method RecordRelays(messages: seq<OlsrMessage>, transmitter: Mac, now: real) returns (hello: bool)
      modifies features
      ensures hello <==> Hello in messages
      ensures features.Snapshot() == NoteAll(old(features.Snapshot()), RelayEvents(messages, transmitter), now)
    {
      hide Note, FeatureCollector.Snapshot;
      var i := 0;
      while i < |messages|
        invariant i <= |messages| && Hello !in messages[..i]
        invariant NoteAll(features.Snapshot(), RelayEvents(messages[i..], transmitter), now)
                  == NoteAll(old(features.Snapshot()), RelayEvents(messages, transmitter), now)
      {
        var m := messages[i];
        assert messages[i..][1..] == messages[i + 1..];
        if m.Hello? { return true; }
        if m.OfTc? {
          ghost var rest := RelayEvents(messages[i + 1..], transmitter);
          assert RelayEvents(messages[i..], transmitter)[1..] == rest;
          features.ObserveTcRelayOnAir(m.tc.originator, m.msgSeq, m.hops, transmitter, now);
        }
        assert messages[..i + 1] == messages[..i] + [m];
        i := i + 1;
      }
      assert messages[..i] == messages;
      return false;
    }

    /** Declares a packet delivered when the frame is addressed to its flow's destination. */
    method RecordLastHop(key: Key, ttl: nat, addr1: Mac, now: real)
      modifies this, features
      ensures features.Snapshot() == NoteAll(old(features.Snapshot()), LastHopEvents(setup, old(firstOnAirByFlowIpId), key, ttl, addr1, now), now)
      ensures firstOnAirByFlowIpId
        == if LastHop(setup, old(firstOnAirByFlowIpId), key, addr1) then old(firstOnAirByFlowIpId) - {key} else old(firstOnAirByFlowIpId)
      ensures featuresActive == old(featuresActive) && runRejected == old(runRejected)
    {
      hide Note, FeatureCollector.Snapshot;
      if key.flow.dst in setup.dstMac && addr1 == setup.dstMac[key.flow.dst] {
        if key in firstOnAirByFlowIpId {
          var r := firstOnAirByFlowIpId[key];
          var lat := if now - r.firstSeen < 0.0 then 0.0 else now - r.firstSeen;
          ghost var es := DeliveryEvents(r, ttl, now);
          assert es[1..] == [es[1]];
          NoteOne(Note(features.Snapshot(), es[0], now), es[1], now);
          features.ObserveDataDeliveredOnAir(r.flow, ttl, lat, r.firstHop, now);
          features.AddDeliveredBytes(r.bytes, now);
          firstOnAirByFlowIpId := firstOnAirByFlowIpId - {key};
        }
      }
    }

    method RecordFlowFrame(f: RadioFrame, now: real)
      requires f.payload.FlowData?
      modifies this, features
      ensures features.Snapshot() == NoteAll(old(features.Snapshot()),
                [ForwardedData(f.addr2, f.addr1, f.payload.key.flow.dst)]
                + LastHopEvents(setup, old(firstOnAirByFlowIpId), f.payload.key, f.payload.ttl, f.addr1, now), now)
      ensures firstOnAirByFlowIpId
        == if LastHop(setup, old(firstOnAirByFlowIpId), f.payload.key, f.addr1) then old(firstOnAirByFlowIpId) - {f.payload.key}
           else old(firstOnAirByFlowIpId)
      ensures featuresActive == old(featuresActive) && runRejected == old(runRejected)
    {
      hide Note, LastHop, LastHopEvents, NoteAll, FeatureCollector.Snapshot;
      ghost var forwarded := ForwardedData(f.addr2, f.addr1, f.payload.key.flow.dst);
      NoteOne(features.Snapshot(), forwarded, now);
      NoteAppend(features.Snapshot(), [forwarded],
                 LastHopEvents(setup, firstOnAirByFlowIpId, f.payload.key, f.payload.ttl, f.addr1, now), now);
      features.ObserveDataForwardOnAir(f.addr2, f.addr1, f.payload.key.flow.dst, now);
      RecordLastHop(f.payload.key, f.payload.ttl, f.addr1, now);
    }

    method ObserveFrame(f: RadioFrame, ghost before: State, ghost es: seq<Event>, now: real)
      requires features.Snapshot() == NoteAll(before, es, now)
      modifies features
      ensures features.Snapshot() == NoteAll(before, es + [SawFrame(f.duration, f.isData, f.isRetry)], now)
    {
      hide Note, NoteAll, FeatureCollector.Snapshot;
      ghost var seen := SawFrame(f.duration, f.isData, f.isRetry);
      NoteAppend(before, es, [seen], now);
      NoteOne(features.Snapshot(), seen, now);
      features.ObserveMacFrame(now, f.duration, f.isData, f.isRetry);
    }

    method PhyTxBegin(f: RadioFrame, now: real)
      modifies this, features
      ensures Value() == Step(setup, old(Value()), PhyTx(f, now))
    {
      hide Note, NoteAll, LastHop, LastHopEvents, RelayEvents, FeatureCollector.Snapshot;
      ghost var before := features.Snapshot();
      ghost var es: seq<Event> := [];
      NoteNone(before, now);
      if !featuresActive { return; }
      if !setup.phyAvailable { return; }
      if f.isControl { return; }
      if f.isData {
        match f.payload {
          case Opaque =>
          case Olsr(messages) =>
            es := RelayEvents(messages, f.addr2);
            var hello := RecordRelays(messages, f.addr2, now);
            if hello {
              assert es + [] == es;
              return;
            }
          case FlowData(key, ttl) =>
            es := [ForwardedData(f.addr2, f.addr1, key.flow.dst)] + LastHopEvents(setup, firstOnAirByFlowIpId, key, ttl, f.addr1, now);
            RecordFlowFrame(f, now);
        }
      }
      assert [] + [SawFrame(f.duration, f.isData, f.isRetry)] == [SawFrame(f.duration, f.isData, f.isRetry)];
      ObserveFrame(f, before, es, now);
    }
  }

  lemma NoteNone(s: State, now: real)
    ensures NoteAll(s, [], now) == s
  {
  }
}
