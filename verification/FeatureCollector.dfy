/** The collector object: its fields, and the methods that update them one
    observation at a time. */
module FeatureCollectors {
  import opened Airwaves
  import opened Collector
  import opened CollectorTraces
  import opened Edges
  import opened MapSums

  class FeatureCollector {
    var winStart: real
    var winEnd: real
    var tcCount: nat
    var midCount: nat
    var hnaCount: nat
    var tcBytes: nat
    var midBytes: nat
    var hnaBytes: nat
    var tcBySender: map<Address, nat>
    var tcBytesBySender: map<Address, nat>
    var tcContentKeys: map<multiset<Address>, nat>
    var tcSizes: seq<nat>
    var advertisedLinksPerTc: seq<nat>
    var tcVtimes: seq<real>
    var tcPayloadBytes: seq<nat>
    var tcAdvertisedAddrCounts: map<Address, nat>
    var tcSenderAddrCounts: map<Address, nat>
    var controlMessageTimes: seq<real>
    var packetSizes: seq<nat>
    var lastAnsnBySender: map<Address, nat>
    var ansnIncrements: seq<int>
    var ansnSkipCount: nat
    var lastTcTimeBySender: map<Address, real>
    var tcInterArrivalsPerSender: map<Address, seq<real>>
    var mprSelectorsByTcSender: map<Address, seq<nat>>
    var mprSelectorsHistoryBySender: map<Address, seq<set<Address>>>
    var distinctMprSetsBySender: map<Address, set<set<Address>>>
    var mprChurnEvents: nat
    var addressesEverSentTc: set<Address>
    var addressesSeenInTcPayload: set<Address>
    var addressesEverSentData: set<Address>
    var addressesFirstSeen: map<Address, real>
    var addressesLastSeen: map<Address, real>
    var observedDirectedEdges: set<(Address, Address)>
    var advertisedEdgesAllTime: set<Edge>
    var edgeFirstSeen: map<Edge, real>
    var edgeLastSeen: map<Edge, real>
    var edgesFirstHalf: set<Edge>
    var edgesLastHalf: set<Edge>
    var dataPackets: nat
    var dataBytes: nat
    var dataDeliveredBytes: nat
    var dataSentByFlow: map<Flow, nat>
    var dataDeliveredByFlow: map<Flow, nat>
    var dataLatencies: seq<real>
    var hopCounts: seq<int>
    var lastArrivalPerFlow: map<Flow, real>
    var jitterSamples: seq<real>
    var flowTxBytes: map<Flow, nat>
    var flowDelays: map<Flow, seq<real>>
    var flowJitters: map<Flow, seq<real>>
    var sourceDestPairs: set<Flow>
    var flowFirstTxTime: map<Flow, real>
    var flowLastTxTime: map<Flow, real>
    var firstHopMacsPerSrc: map<Address, set<Mac>>
    var pathChangeEventsPerSrc: map<Address, nat>
    var lastFirstHopMacPerSrc: map<Address, Mac>
    var phyAvailable: bool
    var macRetxCount: nat
    var dataFramesObservedOnAir: nat
    var busyIntervals: seq<(real, real)>
    var interFrameSpacing: seq<real>
    var lastMacTxEnd: real
    var tcSeqByOriginator: map<Address, set<nat>>
    var tcRelayMacsByOriginator: map<Address, set<Mac>>
    var tcMaxHopByOriginator: map<Address, nat>
    var distinctForwarderNextHopPairs: set<(Mac, Mac)>
    var lastNextHopByForwarderDst: map<(Mac, Address), Mac>
    var forwardersThatChangedNextHop: set<Mac>

    function CountsNow(): Counts
      reads `tcCount, `midCount, `hnaCount, `tcBytes, `midBytes, `hnaBytes, `tcBySender,
            `tcBytesBySender, `tcContentKeys, `controlMessageTimes, `packetSizes
    {
      Counts(tcCount, midCount, hnaCount, tcBytes, midBytes, hnaBytes,
             tcBySender, tcBytesBySender, tcContentKeys, controlMessageTimes, packetSizes)
    }

    function SerialsNow(): Serials
      reads `lastAnsnBySender, `ansnIncrements, `ansnSkipCount, `lastTcTimeBySender, `tcInterArrivalsPerSender
    {
      Serials(lastAnsnBySender, ansnIncrements, ansnSkipCount, lastTcTimeBySender, tcInterArrivalsPerSender)
    }

    function SelectorsNow(): Selectors
      reads `mprSelectorsByTcSender, `mprSelectorsHistoryBySender, `distinctMprSetsBySender, `mprChurnEvents
    {
      Selectors(mprSelectorsHistoryBySender, mprSelectorsByTcSender, distinctMprSetsBySender, mprChurnEvents)
    }

    function AddressesNow(): Addresses
      reads `addressesEverSentTc, `addressesSeenInTcPayload, `addressesEverSentData, `addressesFirstSeen,
            `addressesLastSeen
    {
      Addresses(addressesEverSentTc, addressesSeenInTcPayload, addressesEverSentData, addressesFirstSeen, addressesLastSeen)
    }

    function LinksNow(): Links
      reads `observedDirectedEdges, `advertisedEdgesAllTime, `edgeFirstSeen, `edgeLastSeen
    {
      Links(observedDirectedEdges, advertisedEdgesAllTime, edgeFirstSeen, edgeLastSeen)
    }

    function MessagesNow(): Messages
      reads `tcSizes, `advertisedLinksPerTc, `tcVtimes, `tcSenderAddrCounts, `tcAdvertisedAddrCounts, `tcPayloadBytes
    {
      Messages(tcSizes, advertisedLinksPerTc, tcVtimes, tcSenderAddrCounts, tcAdvertisedAddrCounts, tcPayloadBytes)
    }

    function DataNow(): Data
      reads `dataPackets, `dataBytes, `dataDeliveredBytes, `dataSentByFlow, `dataDeliveredByFlow, `dataLatencies, `hopCounts,
            `lastArrivalPerFlow, `jitterSamples, `flowTxBytes, `flowDelays, `flowJitters
    {
      Data(dataPackets, dataBytes, dataDeliveredBytes, dataSentByFlow, dataDeliveredByFlow, dataLatencies, hopCounts,
           lastArrivalPerFlow, jitterSamples, flowTxBytes, flowDelays, flowJitters)
    }

    function FlightsNow(): Flights
      reads `sourceDestPairs, `flowFirstTxTime, `flowLastTxTime
    {
      Flights(sourceDestPairs, flowFirstTxTime, flowLastTxTime)
    }

    function FirstHopsNow(): FirstHops
      reads `firstHopMacsPerSrc, `pathChangeEventsPerSrc, `lastFirstHopMacPerSrc
    {
      FirstHops(firstHopMacsPerSrc, pathChangeEventsPerSrc, lastFirstHopMacPerSrc)
    }

    function FramesNow(): Frames
      reads `phyAvailable, `macRetxCount, `dataFramesObservedOnAir, `busyIntervals, `interFrameSpacing, `lastMacTxEnd
    {
      Frames(phyAvailable, macRetxCount, dataFramesObservedOnAir, busyIntervals, interFrameSpacing, lastMacTxEnd)
    }

    function RelaysNow(): Relays
      reads `tcSeqByOriginator, `tcRelayMacsByOriginator, `tcMaxHopByOriginator
    {
      Relays(tcSeqByOriginator, tcRelayMacsByOriginator, tcMaxHopByOriginator)
    }

    function ForwardsNow(): Forwards
      reads `distinctForwarderNextHopPairs, `lastNextHopByForwarderDst, `forwardersThatChangedNextHop
    {
      Forwards(distinctForwarderNextHopPairs, lastNextHopByForwarderDst, forwardersThatChangedNextHop)
    }

    function AirNow(): Air
      reads `dataPackets, `dataBytes, `dataDeliveredBytes, `dataSentByFlow, `dataDeliveredByFlow, `dataLatencies, `hopCounts,
            `lastArrivalPerFlow, `jitterSamples, `flowTxBytes, `flowDelays, `flowJitters,
            `sourceDestPairs, `flowFirstTxTime, `flowLastTxTime,
            `firstHopMacsPerSrc, `pathChangeEventsPerSrc, `lastFirstHopMacPerSrc,
            `phyAvailable, `macRetxCount, `dataFramesObservedOnAir, `busyIntervals, `interFrameSpacing, `lastMacTxEnd,
            `tcSeqByOriginator, `tcRelayMacsByOriginator, `tcMaxHopByOriginator,
            `distinctForwarderNextHopPairs, `lastNextHopByForwarderDst, `forwardersThatChangedNextHop
    {
      Air(DataNow(), FlightsNow(), FirstHopsNow(), FramesNow(), RelaysNow(), ForwardsNow())
    }

    function Snapshot(): State
      reads this
    {
      State(CountsNow(), SerialsNow(), SelectorsNow(), AddressesNow(), LinksNow(), MessagesNow(), AirNow())
    }

    constructor ()
      ensures Snapshot() == Fresh(false)
    {
      phyAvailable := false;
      new;
      Reset(0.0);
    }

    method SetPhyAvailable(ok: bool)
      modifies `phyAvailable
      ensures Snapshot() == old(Snapshot()).(air := old(AirNow()).(frames := old(FramesNow()).(available := ok)))
    {
      hide CountsNow, SerialsNow, SelectorsNow, AddressesNow, LinksNow, MessagesNow, DataNow, FlightsNow, FirstHopsNow, RelaysNow, ForwardsNow;
      phyAvailable := ok;
    }

    method ResetCounts()
      modifies `tcCount, `midCount, `hnaCount, `tcBytes, `midBytes, `hnaBytes, `tcBySender,
               `tcBytesBySender, `tcContentKeys, `controlMessageTimes, `packetSizes
      ensures CountsNow() == NO_COUNTS
    {
      tcCount, midCount, hnaCount := 0, 0, 0;
      tcBytes, midBytes, hnaBytes := 0, 0, 0;
      tcBySender, tcBytesBySender, tcContentKeys := map[], map[], map[];
      controlMessageTimes, packetSizes := [], [];
    }

    method ResetSerials()
      modifies `lastAnsnBySender, `ansnIncrements, `ansnSkipCount, `lastTcTimeBySender, `tcInterArrivalsPerSender
      ensures SerialsNow() == NO_SERIALS
    {
      lastAnsnBySender, ansnIncrements, ansnSkipCount := map[], [], 0;
      lastTcTimeBySender, tcInterArrivalsPerSender := map[], map[];
    }

    method ResetSelectors()
      modifies `mprSelectorsByTcSender, `mprSelectorsHistoryBySender, `distinctMprSetsBySender, `mprChurnEvents
      ensures SelectorsNow() == NO_SELECTORS
    {
      mprSelectorsByTcSender, mprSelectorsHistoryBySender := map[], map[];
      distinctMprSetsBySender, mprChurnEvents := map[], 0;
    }

    method ResetAddresses()
      modifies `addressesEverSentTc, `addressesSeenInTcPayload, `addressesEverSentData, `addressesFirstSeen,
               `addressesLastSeen
      ensures AddressesNow() == NO_ADDRESSES
    {
      addressesEverSentTc, addressesSeenInTcPayload, addressesEverSentData := {}, {}, {};
      addressesFirstSeen, addressesLastSeen := map[], map[];
    }

    method ResetLinks()
      modifies `observedDirectedEdges, `advertisedEdgesAllTime, `edgeFirstSeen, `edgeLastSeen
      ensures LinksNow() == NO_LINKS
    {
      observedDirectedEdges, advertisedEdgesAllTime := {}, {};
      edgeFirstSeen, edgeLastSeen := map[], map[];
    }

    method ResetMessages()
      modifies `tcSizes, `advertisedLinksPerTc, `tcVtimes, `tcSenderAddrCounts, `tcAdvertisedAddrCounts, `tcPayloadBytes
      ensures MessagesNow() == NO_MESSAGES
    {
      tcSizes, advertisedLinksPerTc, tcVtimes := [], [], [];
      tcSenderAddrCounts, tcAdvertisedAddrCounts, tcPayloadBytes := map[], map[], [];
    }

    method ResetData()
      modifies `dataPackets, `dataBytes, `dataDeliveredBytes, `dataSentByFlow, `dataDeliveredByFlow, `dataLatencies, `hopCounts,
               `lastArrivalPerFlow, `jitterSamples, `flowTxBytes, `flowDelays, `flowJitters
      ensures DataNow() == NO_DATA
    {
      dataPackets, dataBytes, dataDeliveredBytes := 0, 0, 0;
      dataSentByFlow, dataDeliveredByFlow, flowTxBytes := map[], map[], map[];
      dataLatencies, hopCounts, jitterSamples := [], [], [];
      lastArrivalPerFlow, flowDelays, flowJitters := map[], map[], map[];
    }

    method ResetFlights()
      modifies `sourceDestPairs, `flowFirstTxTime, `flowLastTxTime
      ensures FlightsNow() == NO_FLIGHTS
    {
      sourceDestPairs, flowFirstTxTime, flowLastTxTime := {}, map[], map[];
    }

    method ResetFirstHops()
      modifies `firstHopMacsPerSrc, `pathChangeEventsPerSrc, `lastFirstHopMacPerSrc
      ensures FirstHopsNow() == NO_FIRST_HOPS
    {
      firstHopMacsPerSrc, pathChangeEventsPerSrc, lastFirstHopMacPerSrc := map[], map[], map[];
    }

    method ResetFrames()
      modifies `macRetxCount, `dataFramesObservedOnAir, `busyIntervals, `interFrameSpacing, `lastMacTxEnd
      ensures FramesNow() == NoFrames(phyAvailable)
    {
      macRetxCount, dataFramesObservedOnAir := 0, 0;
      busyIntervals, interFrameSpacing, lastMacTxEnd := [], [], -1.0;
    }

    method ResetRelays()
      modifies `tcSeqByOriginator, `tcRelayMacsByOriginator, `tcMaxHopByOriginator
      ensures RelaysNow() == NO_RELAYS
    {
      tcSeqByOriginator, tcRelayMacsByOriginator, tcMaxHopByOriginator := map[], map[], map[];
    }

    method ResetForwards()
      modifies `distinctForwarderNextHopPairs, `lastNextHopByForwarderDst, `forwardersThatChangedNextHop
      ensures ForwardsNow() == NO_FORWARDS
    {
      distinctForwarderNextHopPairs, lastNextHopByForwarderDst, forwardersThatChangedNextHop := {}, map[], {};
    }

    method ResetPackets()
      modifies `dataPackets, `dataBytes, `dataDeliveredBytes, `dataSentByFlow, `dataDeliveredByFlow, `dataLatencies, `hopCounts,
               `lastArrivalPerFlow, `jitterSamples, `flowTxBytes, `flowDelays, `flowJitters,
               `sourceDestPairs, `flowFirstTxTime, `flowLastTxTime,
               `firstHopMacsPerSrc, `pathChangeEventsPerSrc, `lastFirstHopMacPerSrc
      ensures DataNow() == NO_DATA && FlightsNow() == NO_FLIGHTS && FirstHopsNow() == NO_FIRST_HOPS
    {
      hide DataNow, FlightsNow, FirstHopsNow;
      ResetData();
      ResetFlights();
      ResetFirstHops();
    }

    method ResetMedium()
      modifies `macRetxCount, `dataFramesObservedOnAir, `busyIntervals, `interFrameSpacing, `lastMacTxEnd,
               `tcSeqByOriginator, `tcRelayMacsByOriginator, `tcMaxHopByOriginator,
               `distinctForwarderNextHopPairs, `lastNextHopByForwarderDst, `forwardersThatChangedNextHop
      ensures FramesNow() == NoFrames(phyAvailable) && RelaysNow() == NO_RELAYS && ForwardsNow() == NO_FORWARDS
    {
      hide FramesNow, RelaysNow, ForwardsNow;
      ResetFrames();
      ResetRelays();
      ResetForwards();
    }

    method ResetAir()
      modifies `dataPackets, `dataBytes, `dataDeliveredBytes, `dataSentByFlow, `dataDeliveredByFlow, `dataLatencies, `hopCounts,
               `lastArrivalPerFlow, `jitterSamples, `flowTxBytes, `flowDelays, `flowJitters,
               `sourceDestPairs, `flowFirstTxTime, `flowLastTxTime,
               `firstHopMacsPerSrc, `pathChangeEventsPerSrc, `lastFirstHopMacPerSrc,
               `macRetxCount, `dataFramesObservedOnAir, `busyIntervals, `interFrameSpacing, `lastMacTxEnd,
               `tcSeqByOriginator, `tcRelayMacsByOriginator, `tcMaxHopByOriginator,
               `distinctForwarderNextHopPairs, `lastNextHopByForwarderDst, `forwardersThatChangedNextHop
      ensures AirNow() == NoAir(phyAvailable)
    {
      hide DataNow, FlightsNow, FirstHopsNow, FramesNow, RelaysNow, ForwardsNow;
      ResetPackets();
      ResetMedium();
    }

    method ResetHistories()
      modifies `tcCount, `midCount, `hnaCount, `tcBytes, `midBytes, `hnaBytes, `tcBySender,
               `tcBytesBySender, `tcContentKeys, `controlMessageTimes, `packetSizes,
               `lastAnsnBySender, `ansnIncrements, `ansnSkipCount, `lastTcTimeBySender, `tcInterArrivalsPerSender,
               `mprSelectorsByTcSender, `mprSelectorsHistoryBySender, `distinctMprSetsBySender, `mprChurnEvents
      ensures CountsNow() == NO_COUNTS && SerialsNow() == NO_SERIALS && SelectorsNow() == NO_SELECTORS
    {
      hide CountsNow, SerialsNow, SelectorsNow;
      ResetCounts();
      ResetSerials();
      ResetSelectors();
    }

    method ResetTopology()
      modifies `addressesEverSentTc, `addressesSeenInTcPayload, `addressesEverSentData, `addressesFirstSeen, `addressesLastSeen,
               `observedDirectedEdges, `advertisedEdgesAllTime, `edgeFirstSeen, `edgeLastSeen,
               `tcSizes, `advertisedLinksPerTc, `tcVtimes, `tcSenderAddrCounts, `tcAdvertisedAddrCounts, `tcPayloadBytes
      ensures AddressesNow() == NO_ADDRESSES && LinksNow() == NO_LINKS && MessagesNow() == NO_MESSAGES
    {
      hide AddressesNow, LinksNow, MessagesNow;
      ResetAddresses();
      ResetLinks();
      ResetMessages();
    }

    method ResetControl()
      modifies `tcCount, `midCount, `hnaCount, `tcBytes, `midBytes, `hnaBytes, `tcBySender,
               `tcBytesBySender, `tcContentKeys, `controlMessageTimes, `packetSizes,
               `lastAnsnBySender, `ansnIncrements, `ansnSkipCount, `lastTcTimeBySender, `tcInterArrivalsPerSender,
               `mprSelectorsByTcSender, `mprSelectorsHistoryBySender, `distinctMprSetsBySender, `mprChurnEvents,
               `addressesEverSentTc, `addressesSeenInTcPayload, `addressesEverSentData, `addressesFirstSeen, `addressesLastSeen,
               `observedDirectedEdges, `advertisedEdgesAllTime, `edgeFirstSeen, `edgeLastSeen,
               `tcSizes, `advertisedLinksPerTc, `tcVtimes, `tcSenderAddrCounts, `tcAdvertisedAddrCounts, `tcPayloadBytes
      ensures CountsNow() == NO_COUNTS && SerialsNow() == NO_SERIALS && SelectorsNow() == NO_SELECTORS
      ensures AddressesNow() == NO_ADDRESSES && LinksNow() == NO_LINKS && MessagesNow() == NO_MESSAGES
      ensures AirNow() == old(AirNow())
    {
      hide CountsNow, SerialsNow, SelectorsNow, AddressesNow, LinksNow, MessagesNow, AirNow;
      ResetHistories();
      ResetTopology();
    }

    method ResetWindow(start: real)
      modifies `winStart, `winEnd, `edgesFirstHalf, `edgesLastHalf
      ensures winStart == winEnd == start && edgesFirstHalf == edgesLastHalf == {}
    {
      winStart, winEnd := start, start;
      edgesFirstHalf, edgesLastHalf := {}, {};
    }

    method ResetObservations()
      modifies this
      ensures Snapshot() == Fresh(phyAvailable) && phyAvailable == old(phyAvailable)
      ensures winStart == old(winStart) && winEnd == old(winEnd)
      ensures edgesFirstHalf == old(edgesFirstHalf) && edgesLastHalf == old(edgesLastHalf)
    {
      hide CountsNow, SerialsNow, SelectorsNow, AddressesNow, LinksNow, MessagesNow, AirNow, NoAir;
      ResetAir();
      ResetControl();
    }

    /** Every field but the availability of the PHY trace is as it was at first. */
    method Reset(start: real)
      modifies this
      ensures Snapshot() == Fresh(phyAvailable) && phyAvailable == old(phyAvailable)
      ensures winStart == winEnd == start && edgesFirstHalf == edgesLastHalf == {}
    {
      hide Snapshot;
      ResetWindow(start);
      ResetObservations();
    }

    method CountTcMessage(tc: Tc, now: real)
      modifies `tcCount, `tcBytes, `tcBySender, `tcBytesBySender, `tcContentKeys, `controlMessageTimes, `packetSizes
      ensures CountsNow() == CountTc(old(CountsNow()), tc, now)
    {
      hide Add;
      tcCount := tcCount + 1;
      tcBytes := tcBytes + tc.size;
      tcBySender := Add(tcBySender, tc.originator, 1);
      tcBytesBySender := Add(tcBytesBySender, tc.originator, tc.size);
      tcContentKeys := Add(tcContentKeys, multiset(tc.neighbors), 1);
      controlMessageTimes := controlMessageTimes + [now];
      packetSizes := packetSizes + [tc.size];
    }

    method NoteTcShape(tc: Tc)
      modifies `tcSizes, `advertisedLinksPerTc, `tcVtimes, `tcSenderAddrCounts
      ensures MessagesNow() == NoteShape(old(MessagesNow()), tc)
    {
      tcSizes := tcSizes + [tc.size];
      advertisedLinksPerTc := advertisedLinksPerTc + [|tc.neighbors|];
      tcVtimes := tcVtimes + [tc.vtime];
      tcSenderAddrCounts := Add(tcSenderAddrCounts, tc.originator, 1);
    }

    method CountNeighbor(a: Address)
      modifies `tcAdvertisedAddrCounts, `tcPayloadBytes
      ensures MessagesNow() == NoteNeighbor(old(MessagesNow()), a)
    {
      tcAdvertisedAddrCounts := Add(tcAdvertisedAddrCounts, a, 1);
      tcPayloadBytes := tcPayloadBytes + [a % 256];
    }

    method NoteAnsn(tc: Tc, now: real)
      modifies `lastAnsnBySender, `ansnIncrements, `ansnSkipCount, `lastTcTimeBySender, `tcInterArrivalsPerSender
      ensures SerialsNow() == NoteSerial(old(SerialsNow()), tc, now)
    {
      var a := tc.originator;
      if a in lastAnsnBySender {
        var signedDelta := SignedDelta(lastAnsnBySender[a], tc.ansn);
        ansnIncrements := ansnIncrements + [signedDelta];
        if signedDelta > 1 || signedDelta < 0 { ansnSkipCount := ansnSkipCount + 1; }
      }
      lastAnsnBySender := lastAnsnBySender[a := tc.ansn];
      if a in lastTcTimeBySender {
        tcInterArrivalsPerSender := tcInterArrivalsPerSender[a := List(tcInterArrivalsPerSender, a) + [now - lastTcTimeBySender[a]]];
      }
      lastTcTimeBySender := lastTcTimeBySender[a := now];
    }

    method NoteMprSet(tc: Tc)
      modifies `mprSelectorsByTcSender, `mprSelectorsHistoryBySender, `distinctMprSetsBySender, `mprChurnEvents
      ensures SelectorsNow() == NoteSelectors(old(SelectorsNow()), tc)
    {
      var a := tc.originator;
      var mprSet := set x | x in tc.neighbors;
      mprSelectorsByTcSender := mprSelectorsByTcSender[a := List(mprSelectorsByTcSender, a) + [|mprSet|]];
      var history := List(mprSelectorsHistoryBySender, a);
      if history != [] && history[|history| - 1] != mprSet { mprChurnEvents := mprChurnEvents + 1; }
      mprSelectorsHistoryBySender := mprSelectorsHistoryBySender[a := history + [mprSet]];
      distinctMprSetsBySender := distinctMprSetsBySender[a := Members(distinctMprSetsBySender, a) + {mprSet}];
    }

    method SeeAddress(a: Address, now: real)
      modifies `addressesFirstSeen, `addressesLastSeen
      ensures AddressesNow() == See(old(AddressesNow()), a, now)
    {
      if a !in addressesFirstSeen { addressesFirstSeen := addressesFirstSeen[a := now]; }
      addressesLastSeen := addressesLastSeen[a := now];
    }

    method SeeEdge(x: Address, y: Address, now: real)
      modifies `observedDirectedEdges, `advertisedEdgesAllTime, `edgeFirstSeen, `edgeLastSeen
      ensures LinksNow() == SeeLink(old(LinksNow()), x, y, now)
    {
      observedDirectedEdges := observedDirectedEdges + {(x, y)};
      var e := Edge(x, y);
      if e.a > e.b { e := Edge(y, x); }
      if e !in edgeFirstSeen { edgeFirstSeen := edgeFirstSeen[e := now]; }
      edgeLastSeen := edgeLastSeen[e := now];
      advertisedEdgesAllTime := advertisedEdgesAllTime + {e};
    }

    method SeeAdvertisedAddress(a: Address, now: real)
      modifies `addressesSeenInTcPayload, `addressesFirstSeen, `addressesLastSeen
      ensures AddressesNow() == See(old(AddressesNow()).(inPayload := old(AddressesNow()).inPayload + {a}), a, now)
    {
      addressesSeenInTcPayload := addressesSeenInTcPayload + {a};
      SeeAddress(a, now);
    }

    method SeeNeighbors(tc: Tc, now: real)
      modifies `addressesSeenInTcPayload, `addressesFirstSeen, `addressesLastSeen, `tcAdvertisedAddrCounts, `tcPayloadBytes,
               `observedDirectedEdges, `advertisedEdgesAllTime, `edgeFirstSeen, `edgeLastSeen
      ensures AddressesNow() == SeeAdvertised(old(AddressesNow()), tc.neighbors, now)
      ensures LinksNow() == SeeLinks(old(LinksNow()), tc.originator, tc.neighbors, now)
      ensures MessagesNow() == NoteNeighbors(old(MessagesNow()), tc.neighbors)
    {
      hide AddressesNow, LinksNow, MessagesNow, See, SeeLink, NoteNeighbor;
      var i := 0;
      while i < |tc.neighbors|
        invariant i <= |tc.neighbors|
        invariant AddressesNow() == SeeAdvertised(old(AddressesNow()), tc.neighbors[..i], now)
        invariant LinksNow() == SeeLinks(old(LinksNow()), tc.originator, tc.neighbors[..i], now)
        invariant MessagesNow() == NoteNeighbors(old(MessagesNow()), tc.neighbors[..i])
      {
        assert tc.neighbors[..i + 1][..i] == tc.neighbors[..i];
        SeeAdvertisedAddress(tc.neighbors[i], now);
        CountNeighbor(tc.neighbors[i]);
        SeeEdge(tc.originator, tc.neighbors[i], now);
        i := i + 1;
      }
      assert tc.neighbors[..i] == tc.neighbors;
    }

    method RecordTc(tc: Tc, now: real)
      modifies `tcCount, `tcBytes, `tcBySender, `tcBytesBySender, `tcContentKeys, `controlMessageTimes, `packetSizes,
               `tcSizes, `advertisedLinksPerTc, `tcVtimes, `tcSenderAddrCounts,
               `lastAnsnBySender, `ansnIncrements, `ansnSkipCount, `lastTcTimeBySender, `tcInterArrivalsPerSender
      ensures CountsNow() == CountTc(old(CountsNow()), tc, now)
      ensures SerialsNow() == NoteSerial(old(SerialsNow()), tc, now)
      ensures MessagesNow() == NoteShape(old(MessagesNow()), tc)
      ensures SelectorsNow() == old(SelectorsNow()) && AddressesNow() == old(AddressesNow()) && LinksNow() == old(LinksNow())
      ensures AirNow() == old(AirNow())
    {
      hide CountsNow, SerialsNow, SelectorsNow, AddressesNow, LinksNow, MessagesNow, AirNow, CountTc, NoteSerial, NoteShape;
      CountTcMessage(tc, now);
      NoteTcShape(tc);
      NoteAnsn(tc, now);
    }

    method SeeTopology(tc: Tc, now: real)
      modifies `addressesEverSentTc, `addressesSeenInTcPayload, `addressesFirstSeen, `addressesLastSeen,
               `tcAdvertisedAddrCounts, `tcPayloadBytes,
               `observedDirectedEdges, `advertisedEdgesAllTime, `edgeFirstSeen, `edgeLastSeen
      ensures AddressesNow() == SeeTc(old(AddressesNow()), tc, now)
      ensures LinksNow() == SeeLinks(old(LinksNow()), tc.originator, tc.neighbors, now)
      ensures MessagesNow() == NoteNeighbors(old(MessagesNow()), tc.neighbors)
      ensures CountsNow() == old(CountsNow()) && SerialsNow() == old(SerialsNow()) && SelectorsNow() == old(SelectorsNow())
      ensures AirNow() == old(AirNow())
    {
      hide CountsNow, SerialsNow, SelectorsNow, AddressesNow, LinksNow, MessagesNow, AirNow, See, SeeAdvertised, SeeLinks, NoteNeighbors;
      SeeSender(tc.originator, now);
      SeeNeighbors(tc, now);
    }

    method ObserveTc(tc: Tc, now: real)
      modifies `tcCount, `tcBytes, `tcBySender, `tcBytesBySender, `tcContentKeys, `controlMessageTimes, `packetSizes,
               `tcSizes, `advertisedLinksPerTc, `tcVtimes, `tcSenderAddrCounts, `tcAdvertisedAddrCounts, `tcPayloadBytes,
               `lastAnsnBySender, `ansnIncrements, `ansnSkipCount, `lastTcTimeBySender, `tcInterArrivalsPerSender,
               `addressesEverSentTc, `addressesSeenInTcPayload, `addressesFirstSeen, `addressesLastSeen,
               `observedDirectedEdges, `advertisedEdgesAllTime, `edgeFirstSeen, `edgeLastSeen,
               `mprSelectorsByTcSender, `mprSelectorsHistoryBySender, `distinctMprSetsBySender, `mprChurnEvents
      ensures Snapshot() == Note(old(Snapshot()), HeardTc(tc), now)
    {
      hide CountsNow, SerialsNow, SelectorsNow, AddressesNow, LinksNow, MessagesNow, AirNow;
      hide CountTc, NoteSerial, NoteSelectors, SeeTc, SeeLinks, NoteShape, NoteNeighbors;
      RecordTc(tc, now);
      SeeTopology(tc, now);
      NoteMprSet(tc);
    }

    method SeeSender(a: Address, now: real)
      modifies `addressesEverSentTc, `addressesFirstSeen, `addressesLastSeen
      ensures AddressesNow() == See(old(AddressesNow()).(sentTc := old(AddressesNow()).sentTc + {a}), a, now)
    {
      addressesEverSentTc := addressesEverSentTc + {a};
      SeeAddress(a, now);
    }

    method ObserveMid(size: nat, now: real)
      modifies `midCount, `midBytes, `controlMessageTimes, `packetSizes
      ensures Snapshot() == Note(old(Snapshot()), HeardMid(size), now)
    {
      hide CountsNow, SerialsNow, SelectorsNow, AddressesNow, LinksNow, MessagesNow, AirNow, CountMid;
      CountMidMessage(size, now);
    }

    method CountMidMessage(size: nat, now: real)
      modifies `midCount, `midBytes, `controlMessageTimes, `packetSizes
      ensures CountsNow() == CountMid(old(CountsNow()), size, now)
    {
      midCount := midCount + 1;
      midBytes := midBytes + size;
      controlMessageTimes := controlMessageTimes + [now];
      packetSizes := packetSizes + [size];
    }

    method ObserveHna(size: nat, now: real)
      modifies `hnaCount, `hnaBytes, `controlMessageTimes, `packetSizes
      ensures Snapshot() == Note(old(Snapshot()), HeardHna(size), now)
    {
      hide CountsNow, SerialsNow, SelectorsNow, AddressesNow, LinksNow, MessagesNow, AirNow, CountHna;
      CountHnaMessage(size, now);
    }

    method CountHnaMessage(size: nat, now: real)
      modifies `hnaCount, `hnaBytes, `controlMessageTimes, `packetSizes
      ensures CountsNow() == CountHna(old(CountsNow()), size, now)
    {
      hnaCount := hnaCount + 1;
      hnaBytes := hnaBytes + size;
      controlMessageTimes := controlMessageTimes + [now];
      packetSizes := packetSizes + [size];
    }

    method NotePacketSize(bytes: nat)
      modifies `packetSizes
      ensures CountsNow() == CountData(old(CountsNow()), bytes)
    {
      packetSizes := packetSizes + [bytes];
    }

    method SeeDataSender(src: Address, now: real)
      modifies `addressesEverSentData, `addressesFirstSeen, `addressesLastSeen
      ensures AddressesNow() == SeeData(old(AddressesNow()), src, now)
    {
      addressesEverSentData := addressesEverSentData + {src};
      SeeAddress(src, now);
    }

    method CountSent(f: Flow, bytes: nat)
      modifies `dataPackets, `dataBytes, `dataSentByFlow, `flowTxBytes
      ensures DataNow() == Sent(old(DataNow()), f, bytes)
    {
      dataPackets := dataPackets + 1;
      dataBytes := dataBytes + bytes;
      dataSentByFlow := Add(dataSentByFlow, f, 1);
      flowTxBytes := Add(flowTxBytes, f, bytes);
    }

    method TimeFlow(f: Flow, now: real)
      modifies `sourceDestPairs, `flowFirstTxTime, `flowLastTxTime
      ensures FlightsNow() == NoteFlight(old(FlightsNow()), f, now)
    {
      sourceDestPairs := sourceDestPairs + {f};
      if f !in flowFirstTxTime { flowFirstTxTime := flowFirstTxTime[f := now]; }
      flowLastTxTime := flowLastTxTime[f := now];
    }

    method SendOnAir(f: Flow, bytes: nat, now: real)
      modifies `dataPackets, `dataBytes, `dataSentByFlow, `flowTxBytes, `sourceDestPairs, `flowFirstTxTime, `flowLastTxTime
      ensures AirNow() == SendData(old(AirNow()), f, bytes, now)
    {
      hide DataNow, FlightsNow, FirstHopsNow, FramesNow, RelaysNow, ForwardsNow, Sent, NoteFlight;
      CountSent(f, bytes);
      TimeFlow(f, now);
    }

    method NoteDataSender(src: Address, bytes: nat, now: real)
      modifies `packetSizes, `addressesEverSentData, `addressesFirstSeen, `addressesLastSeen
      ensures CountsNow() == CountData(old(CountsNow()), bytes) && AddressesNow() == SeeData(old(AddressesNow()), src, now)
      ensures SerialsNow() == old(SerialsNow()) && SelectorsNow() == old(SelectorsNow()) && LinksNow() == old(LinksNow())
      ensures MessagesNow() == old(MessagesNow()) && AirNow() == old(AirNow())
    {
      hide CountsNow, SerialsNow, SelectorsNow, AddressesNow, LinksNow, MessagesNow, AirNow, CountData, SeeData;
      NotePacketSize(bytes);
      SeeDataSender(src, now);
    }

    method ObserveDataSentOnAir(f: Flow, bytes: nat, now: real)
      modifies `dataPackets, `dataBytes, `dataSentByFlow, `flowTxBytes, `sourceDestPairs, `flowFirstTxTime, `flowLastTxTime,
               `packetSizes, `addressesEverSentData, `addressesFirstSeen, `addressesLastSeen
      ensures Snapshot() == Note(old(Snapshot()), SentData(f, bytes), now)
    {
      hide CountsNow, SerialsNow, SelectorsNow, AddressesNow, LinksNow, MessagesNow, AirNow, CountData, SeeData, SendData;
      NoteDataSender(f.src, bytes, now);
      SendOnAir(f, bytes, now);
    }

    method ObserveHops(ttl: nat)
      modifies `hopCounts
      ensures DataNow() == CountHops(old(DataNow()), ttl)
    {
      if 0 < ttl <= 65 {
        var hops := 65 - ttl;
        if 1 <= hops < 65 { hopCounts := hopCounts + [hops]; }
      }
    }

    method ObserveArrival(f: Flow, latency: real)
      modifies `dataDeliveredByFlow, `dataLatencies
      ensures DataNow() == CountArrival(old(DataNow()), f, latency)
    {
      dataDeliveredByFlow := Add(dataDeliveredByFlow, f, 1);
      dataLatencies := dataLatencies + [latency];
    }

    method ObserveJitter(f: Flow, latency: real)
      modifies `jitterSamples, `flowJitters
      ensures DataNow() == SampleJitter(old(DataNow()), f, latency)
    {
      if f in lastArrivalPerFlow {
        var jitterSample := Distance(latency, lastArrivalPerFlow[f]);
        jitterSamples := jitterSamples + [jitterSample];
        flowJitters := flowJitters[f := List(flowJitters, f) + [jitterSample]];
      }
    }

    method ObserveDelay(f: Flow, latency: real)
      modifies `lastArrivalPerFlow, `flowDelays
      ensures DataNow() == NoteDelay(old(DataNow()), f, latency)
    {
      lastArrivalPerFlow := lastArrivalPerFlow[f := latency];
      flowDelays := flowDelays[f := List(flowDelays, f) + [latency]];
    }

    method CountDelivery(f: Flow, ttl: nat, latency: real)
      modifies `hopCounts, `dataDeliveredByFlow, `dataLatencies, `jitterSamples, `flowJitters, `lastArrivalPerFlow, `flowDelays
      ensures DataNow() == Arrived(old(DataNow()), f, ttl, latency)
    {
      hide DataNow, CountHops, CountArrival, SampleJitter, NoteDelay;
      ObserveHops(ttl);
      ObserveArrival(f, latency);
      ObserveJitter(f, latency);
      ObserveDelay(f, latency);
    }

    method TrackFirstHop(src: Address, mac: Mac)
      modifies `firstHopMacsPerSrc, `pathChangeEventsPerSrc, `lastFirstHopMacPerSrc
      ensures FirstHopsNow() == NoteFirstHop(old(FirstHopsNow()), src, mac)
    {
      if mac != NO_MAC {
        firstHopMacsPerSrc := firstHopMacsPerSrc[src := Members(firstHopMacsPerSrc, src) + {mac}];
        if src in lastFirstHopMacPerSrc && lastFirstHopMacPerSrc[src] != mac {
          pathChangeEventsPerSrc := Add(pathChangeEventsPerSrc, src, 1);
        }
        lastFirstHopMacPerSrc := lastFirstHopMacPerSrc[src := mac];
      }
    }

    method DeliverOnAir(f: Flow, ttl: nat, latency: real, mac: Mac)
      modifies `hopCounts, `dataDeliveredByFlow, `dataLatencies, `jitterSamples, `flowJitters, `lastArrivalPerFlow, `flowDelays,
               `firstHopMacsPerSrc, `pathChangeEventsPerSrc, `lastFirstHopMacPerSrc
      ensures AirNow() == DeliverData(old(AirNow()), f, ttl, latency, mac)
    {
      hide DataNow, FlightsNow, FirstHopsNow, FramesNow, RelaysNow, ForwardsNow, Arrived, NoteFirstHop;
      CountDelivery(f, ttl, latency);
      TrackFirstHop(f.src, mac);
    }

    method ObserveDataDeliveredOnAir(f: Flow, ttl: nat, latency: real, firstHop: Mac, now: real)
      modifies `hopCounts, `dataDeliveredByFlow, `dataLatencies, `jitterSamples, `flowJitters, `lastArrivalPerFlow, `flowDelays,
               `firstHopMacsPerSrc, `pathChangeEventsPerSrc, `lastFirstHopMacPerSrc
      ensures Snapshot() == Note(old(Snapshot()), DeliveredData(f, ttl, latency, firstHop), now)
    {
      hide CountsNow, SerialsNow, SelectorsNow, AddressesNow, LinksNow, MessagesNow, AirNow, DeliverData;
      DeliverOnAir(f, ttl, latency, firstHop);
    }

    method CreditBytes(bytes: nat)
      modifies `dataDeliveredBytes
      ensures AirNow() == old(AirNow()).(data := Credit(old(AirNow()).data, bytes))
    {
      hide FlightsNow, FirstHopsNow, FramesNow, RelaysNow, ForwardsNow;
      dataDeliveredBytes := dataDeliveredBytes + bytes;
    }

    method AddDeliveredBytes(bytes: nat, now: real)
      modifies `dataDeliveredBytes
      ensures Snapshot() == Note(old(Snapshot()), CreditedBytes(bytes), now)
    {
      hide CountsNow, SerialsNow, SelectorsNow, AddressesNow, LinksNow, MessagesNow, AirNow, Credit;
      CreditBytes(bytes);
    }

    method NoteMacFrame(duration: real, isData: bool, isRetry: bool, now: real)
      modifies `macRetxCount, `dataFramesObservedOnAir, `busyIntervals, `interFrameSpacing, `lastMacTxEnd
      ensures FramesNow() == NoteFrame(old(FramesNow()), duration, isData, isRetry, now)
    {
      if !phyAvailable { return; }
      if duration > 0.0 { busyIntervals := busyIntervals + [(now, now + duration)]; }
      if lastMacTxEnd >= 0.0 { interFrameSpacing := interFrameSpacing + [now - lastMacTxEnd]; }
      lastMacTxEnd := now;
      if isData {
        dataFramesObservedOnAir := dataFramesObservedOnAir + 1;
        if isRetry { macRetxCount := macRetxCount + 1; }
      }
    }

    method ObserveMacFrame(now: real, duration: real, isData: bool, isRetry: bool)
      modifies `macRetxCount, `dataFramesObservedOnAir, `busyIntervals, `interFrameSpacing, `lastMacTxEnd
      ensures Snapshot() == Note(old(Snapshot()), SawFrame(duration, isData, isRetry), now)
    {
      hide CountsNow, SerialsNow, SelectorsNow, AddressesNow, LinksNow, MessagesNow;
      hide DataNow, FlightsNow, FirstHopsNow, FramesNow, RelaysNow, ForwardsNow, NoteFrame;
      NoteMacFrame(duration, isData, isRetry, now);
    }

    method NoteRelayedTc(originator: Address, msgSeq: nat, hops: nat, mac: Mac)
      modifies `tcSeqByOriginator, `tcRelayMacsByOriginator, `tcMaxHopByOriginator
      ensures RelaysNow() == NoteRelay(old(RelaysNow()), originator, msgSeq, hops, mac)
    {
      tcSeqByOriginator := tcSeqByOriginator[originator := Members(tcSeqByOriginator, originator) + {msgSeq}];
      if mac != NO_MAC {
        tcRelayMacsByOriginator := tcRelayMacsByOriginator[originator := Members(tcRelayMacsByOriginator, originator) + {mac}];
      }
      if originator !in tcMaxHopByOriginator || hops > tcMaxHopByOriginator[originator] {
        tcMaxHopByOriginator := tcMaxHopByOriginator[originator := hops];
      }
    }

    method ObserveTcRelayOnAir(originator: Address, msgSeq: nat, hops: nat, transmitter: Mac, now: real)
      modifies `tcSeqByOriginator, `tcRelayMacsByOriginator, `tcMaxHopByOriginator
      ensures Snapshot() == Note(old(Snapshot()), RelayedTc(originator, msgSeq, hops, transmitter), now)
    {
      hide CountsNow, SerialsNow, SelectorsNow, AddressesNow, LinksNow, MessagesNow;
      hide DataNow, FlightsNow, FirstHopsNow, FramesNow, RelaysNow, ForwardsNow, NoteRelay;
      NoteRelayedTc(originator, msgSeq, hops, transmitter);
    }

    method NoteForwarding(forwarder: Mac, nextHop: Mac, dst: Address)
      modifies `distinctForwarderNextHopPairs, `lastNextHopByForwarderDst, `forwardersThatChangedNextHop
      ensures ForwardsNow() == NoteForward(old(ForwardsNow()), forwarder, nextHop, dst)
    {
      if forwarder == NO_MAC || nextHop == NO_MAC { return; }
      distinctForwarderNextHopPairs := distinctForwarderNextHopPairs + {(forwarder, nextHop)};
      var key := (forwarder, dst);
      if key !in lastNextHopByForwarderDst {
        lastNextHopByForwarderDst := lastNextHopByForwarderDst[key := nextHop];
      } else if lastNextHopByForwarderDst[key] != nextHop {
        lastNextHopByForwarderDst := lastNextHopByForwarderDst[key := nextHop];
        forwardersThatChangedNextHop := forwardersThatChangedNextHop + {forwarder};
      }
    }

    method ObserveDataForwardOnAir(forwarder: Mac, nextHop: Mac, dst: Address, now: real)
      modifies `distinctForwarderNextHopPairs, `lastNextHopByForwarderDst, `forwardersThatChangedNextHop
      ensures Snapshot() == Note(old(Snapshot()), ForwardedData(forwarder, nextHop, dst), now)
    {
      hide CountsNow, SerialsNow, SelectorsNow, AddressesNow, LinksNow, MessagesNow;
      hide DataNow, FlightsNow, FirstHopsNow, FramesNow, RelaysNow, ForwardsNow, NoteForward;
      NoteForwarding(forwarder, nextHop, dst);
    }

    /** Hands one observation to the method for it. */
    method Observe(e: Event, now: real)
      modifies this
      ensures Snapshot() == Note(old(Snapshot()), e, now) && phyAvailable == old(phyAvailable)
    {
      hide Snapshot, Note;
      match e {
        case HeardTc(tc) => ObserveTc(tc, now);
        case HeardMid(size) => ObserveMid(size, now);
        case HeardHna(size) => ObserveHna(size, now);
        case SentData(f, bytes) => ObserveDataSentOnAir(f, bytes, now);
        case DeliveredData(f, ttl, latency, mac) => ObserveDataDeliveredOnAir(f, ttl, latency, mac, now);
        case CreditedBytes(bytes) => AddDeliveredBytes(bytes, now);
        case SawFrame(duration, isData, isRetry) => ObserveMacFrame(now, duration, isData, isRetry);
        case RelayedTc(originator, msgSeq, hops, mac) => ObserveTcRelayOnAir(originator, msgSeq, hops, mac, now);
        case ForwardedData(forwarder, nextHop, dst) => ObserveDataForwardOnAir(forwarder, nextHop, dst, now);
      }
    }
  }

  /** Any run of observations after a reset leaves the redundant fields in agreement. */
  method ReplayAgrees(c: FeatureCollector, start: real, events: Trace)
    modifies c
    ensures c.Snapshot() == Run(old(c.phyAvailable), events)
    ensures Agree(c.Snapshot(), FirstSerials(events))
    ensures events != [] && InOrder(events) ==> LinksAgree(c.Snapshot().links, events[|events| - 1].1)
  {
    hide Note, Agree, NoteFirst;
    ghost var phy := c.phyAvailable;
    c.Reset(start);
    var i := 0;
    while i < |events|
      invariant i <= |events|
      invariant c.Snapshot() == Run(phy, events[..i])
      decreases |events| - i
    {
      assert events[..i + 1][..i] == events[..i];
      c.Observe(events[i].0, events[i].1);
      i := i + 1;
    }
    assert events[..i] == events;
    TracesAgree(phy, events);
    if events != [] && InOrder(events) { LinksOfTrace(phy, events, events[|events| - 1].1); }
  }
}
