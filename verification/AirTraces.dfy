/** What the collector's records of the air say about any trace of observations. */
module AirTraces {
  import opened Airwaves
  import opened Collector
  import opened CollectorTraces
  import opened Edges
  import opened MapSums

  /** The air after one more observation. */
  function AirAfter(a: Air, e: Event, now: real): Air {
    if e.SentData? then SendData(a, e.flow, e.bytes, now) else NoteAir(a, e, now)
  }

  lemma AirStep(s: State, e: Event, now: real)
    ensures Note(s, e, now).air == AirAfter(s.air, e, now)
  {
    hide NoteTc, SendData, CountMid, CountHna, CountData, SeeData;
    if e.HeardTc? { assert NoteTc(s, e.tc, now).air == s.air by { TcKeepsAir(s, e.tc, now); } }
  }

  lemma TcKeepsAir(s: State, tc: Tc, now: real)
    ensures NoteTc(s, tc, now).air == s.air
  {
  }

  function AirOf(phy: bool, events: Trace): Air {
    Run(phy, events).air
  }

  lemma AirGrows(phy: bool, events: Trace)
    requires events != []
    ensures AirOf(phy, events) == AirAfter(AirOf(phy, events[..|events| - 1]), events[|events| - 1].0, events[|events| - 1].1)
  {
    AirStep(Run(phy, events[..|events| - 1]), events[|events| - 1].0, events[|events| - 1].1);
    hide Note, AirAfter;
  }

  // ------------------------------------------------------------ flow times

  ghost function Sending(): (Event, Flow) -> bool {
    (e: Event, f: Flow) => e.SentData? && e.flow == f
  }

  lemma FlightTimesNext(a: Air, e: Event, now: real, f: Flow)
    ensures var x := AirAfter(a, e, now).flights;
      TimesNext(a.flights.firstTx, a.flights.lastTx, x.firstTx, x.lastTx, Sending()(e, f), f, now)
  {
    hide Sent, Arrived, NoteFirstHop, Credit, NoteFrame, NoteRelay, NoteForward;
  }

  /** A flow's times are those of its first and last transmissions. */
  lemma {:induction false} FlightTimes(phy: bool, events: Trace, f: Flow)
    ensures var x := AirOf(phy, events).flights; TimesOf(x.firstTx, x.lastTx, events, Sending(), f)
  {
    hide TimesOf, TimesNext, AirAfter, Sending;
    if events == [] {
      NeverSeen<Flow>(Sending(), f);
    } else {
      var before, e, now := events[..|events| - 1], events[|events| - 1].0, events[|events| - 1].1;
      hide AirOf;
      FlightTimes(phy, before, f);
      AirGrows(phy, events);
      FlightTimesNext(AirOf(phy, before), e, now, f);
      var x, y := AirOf(phy, before).flights, AirOf(phy, events).flights;
      TimesGrow(x.firstTx, x.lastTx, y.firstTx, y.lastTx, before, Sending(), f, e, now);
      assert events == before + [(e, now)];
    }
  }

  // ------------------------------------------------------------- first hops

  /** A delivery from src came by the first hop. */
  ghost predicate ByFirstHop(e: Event, src: Address, mac: Mac) {
    e.DeliveredData? && e.flow.src == src && e.firstHop == mac && mac != NO_MAC
  }

  ghost predicate CameBy(events: Trace, src: Address, mac: Mac) {
    exists i :: 0 <= i < |events| && ByFirstHop(events[i].0, src, mac)
  }

  lemma FirstHopsNext(a: Air, e: Event, now: real, src: Address, mac: Mac)
    ensures mac in Members(AirAfter(a, e, now).firstHops.macs, src) <==> mac in Members(a.firstHops.macs, src) || ByFirstHop(e, src, mac)
  {
    hide Sent, Arrived, Credit, NoteFlight, NoteFrame, NoteRelay, NoteForward;
  }

  /** The first hops of a source are those its deliveries came by. */
  lemma {:induction false} FirstHopsOfTrace(phy: bool, events: Trace, src: Address, mac: Mac)
    ensures mac in Members(AirOf(phy, events).firstHops.macs, src) <==> CameBy(events, src, mac)
  {
    hide AirAfter, ByFirstHop;
    if events != [] {
      var before, e, now := events[..|events| - 1], events[|events| - 1].0, events[|events| - 1].1;
      hide AirOf;
      FirstHopsOfTrace(phy, before, src, mac);
      AirGrows(phy, events);
      FirstHopsNext(AirOf(phy, before), e, now, src, mac);
      if CameBy(before, src, mac) {
        var i :| 0 <= i < |before| && ByFirstHop(before[i].0, src, mac);
        assert events[i] == before[i];
      }
      if CameBy(events, src, mac) && !ByFirstHop(e, src, mac) {
        var i :| 0 <= i < |events| && ByFirstHop(events[i].0, src, mac);
        assert events[i] == before[i];
      }
    }
  }

  lemma TwoMembers(s: set<Mac>)
    ensures |s| > 1 <==> exists x, y :: x in s && y in s && x != y
  {
    if |s| > 1 {
      var x :| x in s;
      assert |s - {x}| > 0;
      var y :| y in s - {x};
    }
    if x, y :| x in s && y in s && x != y {
      assert {x, y} <= s && |{x, y}| == 2;
      assert s == {x, y} + (s - {x, y});
    }
  }

  lemma SourcesAgree(phy: bool, events: Trace, src: Address)
    ensures SourceAgrees(AirOf(phy, events).firstHops, src)
  {
    hide CountsAgree, SerialsAgree, SelectorsAgree, MessagesAgree, AddressesAgree, Sampled, FlightsAgree, FramesAgree, SourceAgrees, Run;
    TracesAgree(phy, events);
  }

  /** A source has path changes exactly when its deliveries came by different first hops. */
  lemma PathChanged(phy: bool, events: Trace, src: Address)
    ensures At(AirOf(phy, events).firstHops.changes, src) > 0 <==> exists x, y :: CameBy(events, src, x) && CameBy(events, src, y) && x != y
  {
    hide AirOf, CameBy, Members, At;
    var h := AirOf(phy, events).firstHops;
    SourcesAgree(phy, events, src);
    var macs := Members(h.macs, src);
    TwoMembers(macs);
    forall mac
      ensures mac in macs <==> CameBy(events, src, mac)
    {
      FirstHopsOfTrace(phy, events, src, mac);
    }
  }

  /** The first hops of the source's deliveries, in order, as far as known. */
  ghost function HopsOf(events: Trace, src: Address): seq<Mac> {
    if events == [] then []
    else
      var before, e := HopsOf(events[..|events| - 1], src), events[|events| - 1].0;
      if e.DeliveredData? && e.flow.src == src && e.firstHop != NO_MAC then before + [e.firstHop] else before
  }

  /** How often one differs from the one before. */
  ghost function Switches(hops: seq<Mac>): nat {
    if |hops| < 2 then 0 else Switches(hops[..|hops| - 1]) + if hops[|hops| - 2] == hops[|hops| - 1] then 0 else 1
  }

  ghost predicate SwitchesTold(h: FirstHops, src: Address, hops: seq<Mac>) {
    && (src in h.last <==> hops != []) && (hops != [] && src in h.last ==> h.last[src] == hops[|hops| - 1])
    && At(h.changes, src) == Switches(hops)
  }

  lemma {:induction false} SwitchesPush(hops: seq<Mac>, mac: Mac)
    ensures Switches(hops + [mac]) == Switches(hops) + if hops == [] || hops[|hops| - 1] == mac then 0 else 1
  {
    var more := hops + [mac];
    assert more[..|more| - 1] == hops && more[|more| - 1] == mac;
    if hops != [] { assert more[|more| - 2] == hops[|hops| - 1]; }
  }

  lemma SwitchesNext(h: FirstHops, src: Address, hops: seq<Mac>, from: Address, mac: Mac)
    requires SwitchesTold(h, src, hops)
    ensures SwitchesTold(NoteFirstHop(h, from, mac), src, if from == src && mac != NO_MAC then hops + [mac] else hops)
  {
    hide Switches;
    SwitchesPush(hops, mac);
  }

  lemma FirstHopsAfter(a: Air, e: Event, now: real)
    ensures AirAfter(a, e, now).firstHops == if e.DeliveredData? then NoteFirstHop(a.firstHops, e.flow.src, e.firstHop) else a.firstHops
  {
  }

  /** Path changes number the deliveries whose first hop differs from the one before. */
  lemma {:induction false} SwitchesOfTrace(phy: bool, events: Trace, src: Address)
    ensures SwitchesTold(AirOf(phy, events).firstHops, src, HopsOf(events, src))
  {
    hide AirAfter, NoteFirstHop;
    if events != [] {
      hide AirOf, SwitchesTold;
      var before, e, now := events[..|events| - 1], events[|events| - 1].0, events[|events| - 1].1;
      SwitchesOfTrace(phy, before, src);
      AirGrows(phy, events);
      FirstHopsAfter(AirOf(phy, before), e, now);
      if e.DeliveredData? { SwitchesNext(AirOf(phy, before).firstHops, src, HopsOf(before, src), e.flow.src, e.firstHop); }
    }
  }

  // ----------------------------------------------------------------- frames

  /** The frames of the trace, with their times. */
  function FramesOf(events: Trace): Trace {
    if events == [] then []
    else
      var before, e := FramesOf(events[..|events| - 1]), events[|events| - 1];
      if e.0.SawFrame? then before + [e] else before
  }

  function BusyIn(frames: Trace): seq<(real, real)> {
    if frames == [] then []
    else
      var before, (e, at) := BusyIn(frames[..|frames| - 1]), frames[|frames| - 1];
      if e.SawFrame? && e.duration > 0.0 then before + [(at, at + e.duration)] else before
  }

  function DataIn(frames: Trace, retriesOnly: bool): nat {
    if frames == [] then 0
    else
      var e := frames[|frames| - 1].0;
      DataIn(frames[..|frames| - 1], retriesOnly) + if e.SawFrame? && e.isData && (retriesOnly ==> e.isRetry) then 1 else 0
  }

  /** Each spacing is the time between two consecutive frames. */
  ghost predicate SpacingOf(spacing: seq<real>, lastEnd: real, frames: Trace) {
    if frames == [] then spacing == [] && lastEnd == -1.0
    else
      && |spacing| == |frames| - 1 && lastEnd == frames[|frames| - 1].1 >= 0.0
      && forall i :: 0 <= i < |spacing| ==> spacing[i] == frames[i + 1].1 - frames[i].1
  }

  lemma FramesNext(x: Frames, frames: Trace, duration: real, isData: bool, isRetry: bool, now: real)
    requires x.available && now >= 0.0 && SpacingOf(x.spacing, x.lastEnd, frames)
    requires x.busy == BusyIn(frames) && x.dataFrames == DataIn(frames, false) && x.retransmitted == DataIn(frames, true)
    ensures var y, more := NoteFrame(x, duration, isData, isRetry, now), frames + [(SawFrame(duration, isData, isRetry), now)];
      && SpacingOf(y.spacing, y.lastEnd, more)
      && y.busy == BusyIn(more) && y.dataFrames == DataIn(more, false) && y.retransmitted == DataIn(more, true)
  {
    assert (frames + [(SawFrame(duration, isData, isRetry), now)])[..|frames|] == frames;
  }

  lemma OtherFrames(a: Air, e: Event, now: real)
    requires !e.SawFrame?
    ensures AirAfter(a, e, now).frames == a.frames
  {
  }

  /** With the PHY trace the frame records are those of the frames seen; without it they stay empty. */
  lemma {:induction false} FramesOfTrace(phy: bool, events: Trace)
    requires forall i :: 0 <= i < |events| ==> events[i].1 >= 0.0
    ensures var x, frames := AirOf(phy, events).frames, FramesOf(events);
      && x.available == phy
      && (!phy ==> x == NoFrames(false))
      && (phy ==> SpacingOf(x.spacing, x.lastEnd, frames)
                  && x.busy == BusyIn(frames) && x.dataFrames == DataIn(frames, false) && x.retransmitted == DataIn(frames, true))
  {
    hide AirAfter, BusyIn, DataIn, SpacingOf;
    if events == [] {
      NoFramesYet();
    } else {
      var before, e, now := events[..|events| - 1], events[|events| - 1].0, events[|events| - 1].1;
      hide AirOf, NoteFrame;
      FramesOfTrace(phy, before);
      AirGrows(phy, events);
      var a := AirOf(phy, before);
      if e.SawFrame? {
        if phy { FramesNext(a.frames, FramesOf(before), e.duration, e.isData, e.isRetry, now); }
        FrameAfter(a, e, now);
      } else {
        OtherFrames(a, e, now);
      }
    }
  }

  lemma FrameAfter(a: Air, e: Event, now: real)
    requires e.SawFrame?
    ensures AirAfter(a, e, now).frames == NoteFrame(a.frames, e.duration, e.isData, e.isRetry, now)
    ensures AirAfter(a, e, now).frames.available == a.frames.available
    ensures !a.frames.available ==> AirAfter(a, e, now).frames == a.frames
  {
  }

  lemma NoFramesYet()
    ensures SpacingOf([], -1.0, []) && BusyIn([]) == [] && DataIn([], false) == 0 == DataIn([], true)
  {
  }

  // ----------------------------------------------------------------- relays

  ghost predicate Relaying(e: Event, a: Address, msgSeq: nat, hops: nat, mac: Mac) {
    e == RelayedTc(a, msgSeq, hops, mac)
  }

  ghost predicate Relayed(events: Trace, a: Address, msgSeq: nat, hops: nat, mac: Mac) {
    exists i :: 0 <= i < |events| && Relaying(events[i].0, a, msgSeq, hops, mac)
  }

  lemma RelayedNext(events: Trace, e: Event, now: real, a: Address, msgSeq: nat, hops: nat, mac: Mac)
    ensures Relayed(events + [(e, now)], a, msgSeq, hops, mac) <==> Relayed(events, a, msgSeq, hops, mac) || Relaying(e, a, msgSeq, hops, mac)
  {
    var more := events + [(e, now)];
    assert more[|events|] == (e, now);
    if i :| 0 <= i < |events| && Relaying(events[i].0, a, msgSeq, hops, mac) { assert more[i] == events[i]; }
  }

  /** What is recorded of an originator was heard. */
  ghost predicate RelaysHeard(r: Relays, events: Trace, a: Address) {
    && (a in r.maxHop ==> exists q, m :: Relayed(events, a, q, r.maxHop[a], m))
    && (forall q :: q in Members(r.seqs, a) ==> exists h, m :: Relayed(events, a, q, h, m))
    && (forall m :: m in Members(r.macs, a) ==> exists q, h :: Relayed(events, a, q, h, m))
  }

  ghost predicate CopyKept(r: Relays, a: Address, msgSeq: nat, hops: nat, mac: Mac) {
    a in r.maxHop && hops <= r.maxHop[a] && msgSeq in Members(r.seqs, a) && (mac in Members(r.macs, a) <==> mac != NO_MAC)
  }

  /** What was heard of an originator is recorded. */
  ghost predicate RelaysKept(r: Relays, events: Trace, a: Address) {
    forall q, h, m :: Relayed(events, a, q, h, m) ==> CopyKept(r, a, q, h, m)
  }

  ghost predicate RelaysOf(r: Relays, events: Trace, a: Address) {
    RelaysHeard(r, events, a) && RelaysKept(r, events, a) && NO_MAC !in Members(r.macs, a)
  }

  lemma RelaysNext(events: Trace, e: Event, now: real, a: Address)
    ensures forall q, h, m ::
              Relayed(events + [(e, now)], a, q, h, m) <==> Relayed(events, a, q, h, m) || Relaying(e, a, q, h, m)
  {
    forall q, h, m
      ensures Relayed(events + [(e, now)], a, q, h, m) <==> Relayed(events, a, q, h, m) || Relaying(e, a, q, h, m)
    {
      RelayedNext(events, e, now, a, q, h, m);
    }
  }

  lemma HeardGrow(r: Relays, events: Trace, a: Address, e: Event, now: real, r': Relays)
    requires RelaysHeard(r, events, a)
    requires if e.RelayedTc? then r' == NoteRelay(r, e.originator, e.msgSeq, e.hops, e.transmitter) else r' == r
    ensures RelaysHeard(r', events + [(e, now)], a)
  {
    hide Relayed;
    var more := events + [(e, now)];
    RelaysNext(events, e, now, a);
    if e.RelayedTc? && e.originator == a { assert Relayed(more, a, e.msgSeq, e.hops, e.transmitter); }
    if a in r.maxHop {
      var q, m :| Relayed(events, a, q, r.maxHop[a], m);
      assert Relayed(more, a, q, r.maxHop[a], m);
    }
    forall q | q in Members(r'.seqs, a)
      ensures exists h, m :: Relayed(more, a, q, h, m)
    {
      if q in Members(r.seqs, a) {
        var h, m :| Relayed(events, a, q, h, m);
        assert Relayed(more, a, q, h, m);
      }
    }
    forall m | m in Members(r'.macs, a)
      ensures exists q, h :: Relayed(more, a, q, h, m)
    {
      if m in Members(r.macs, a) {
        var q, h :| Relayed(events, a, q, h, m);
        assert Relayed(more, a, q, h, m);
      }
    }
  }

  lemma KeptGrow(r: Relays, events: Trace, a: Address, e: Event, now: real, r': Relays)
    requires RelaysKept(r, events, a) && NO_MAC !in Members(r.macs, a)
    requires if e.RelayedTc? then r' == NoteRelay(r, e.originator, e.msgSeq, e.hops, e.transmitter) else r' == r
    ensures RelaysKept(r', events + [(e, now)], a) && NO_MAC !in Members(r'.macs, a)
  {
    hide Relayed;
    RelaysNext(events, e, now, a);
    forall q, h, m | Relayed(events + [(e, now)], a, q, h, m)
      ensures CopyKept(r', a, q, h, m)
    {
      if Relayed(events, a, q, h, m) { assert CopyKept(r, a, q, h, m); }
    }
  }

  lemma RelaysAfter(a: Air, e: Event, now: real)
    ensures var r, r' := a.relays, AirAfter(a, e, now).relays;
      if e.RelayedTc? then r' == NoteRelay(r, e.originator, e.msgSeq, e.hops, e.transmitter) else r' == r
  {
  }

  /** The greatest hop count, the sequence numbers and the transmitters of an
      originator's messages are those of the copies heard. */
  lemma {:induction false} RelaysOfTrace(phy: bool, events: Trace, a: Address)
    ensures RelaysOf(AirOf(phy, events).relays, events, a)
  {
    hide AirAfter, Relayed, NoteRelay;
    if events == [] {
      NoRelays(a);
    } else {
      hide AirOf, RelaysHeard, RelaysKept;
      var before, e, now := events[..|events| - 1], events[|events| - 1].0, events[|events| - 1].1;
      RelaysOfTrace(phy, before, a);
      AirGrows(phy, events);
      RelaysAfter(AirOf(phy, before), e, now);
      HeardGrow(AirOf(phy, before).relays, before, a, e, now, AirOf(phy, events).relays);
      KeptGrow(AirOf(phy, before).relays, before, a, e, now, AirOf(phy, events).relays);
      assert events == before + [(e, now)];
    }
  }

  lemma NoRelays(a: Address)
    ensures RelaysOf(NO_RELAYS, [], a)
  {
  }

  // -------------------------------------------------------------- forwarding

  /** A frame for dst went from the forwarder to the next hop. */
  ghost predicate Hop(e: Event, forwarder: Mac, nextHop: Mac, dst: Address) {
    e == ForwardedData(forwarder, nextHop, dst) && forwarder != NO_MAC && nextHop != NO_MAC
  }

  ghost predicate HopAt(events: Trace, i: int, forwarder: Mac, nextHop: Mac, dst: Address) {
    0 <= i < |events| && Hop(events[i].0, forwarder, nextHop, dst)
  }

  /** The last next hop from the forwarder for dst is recorded, if there is any. */
  ghost predicate LastHop(w: Forwards, events: Trace, forwarder: Mac, dst: Address) {
    && ((forwarder, dst) in w.last ==> exists i :: HopAt(events, i, forwarder, w.last[(forwarder, dst)], dst)
                                                && forall j, n :: HopAt(events, j, forwarder, n, dst) ==> j <= i)
    && ((forwarder, dst) !in w.last ==> forall i, n :: !HopAt(events, i, forwarder, n, dst))
  }

  /** Two frames of the forwarder for one destination went to different next hops. */
  ghost predicate Rerouted(events: Trace, forwarder: Mac) {
    exists i, j, n, m, dst :: HopAt(events, i, forwarder, n, dst) && HopAt(events, j, forwarder, m, dst) && n != m
  }

  lemma HopNext(events: Trace, e: Event, now: real, i: int, forwarder: Mac, nextHop: Mac, dst: Address)
    ensures HopAt(events + [(e, now)], i, forwarder, nextHop, dst)
      <==> HopAt(events, i, forwarder, nextHop, dst) || (i == |events| && Hop(e, forwarder, nextHop, dst))
    ensures HopAt(events, i, forwarder, nextHop, dst) ==> 0 <= i < |events|
  {
  }

  lemma HopsNext(events: Trace, e: Event, now: real, forwarder: Mac)
    ensures forall i, n, dst ::
              HopAt(events + [(e, now)], i, forwarder, n, dst)
              <==> HopAt(events, i, forwarder, n, dst) || (i == |events| && Hop(e, forwarder, n, dst))
    ensures forall i, n, dst :: HopAt(events, i, forwarder, n, dst) ==> 0 <= i < |events|
  {
    forall i, n, dst
      ensures HopAt(events + [(e, now)], i, forwarder, n, dst) <==> HopAt(events, i, forwarder, n, dst) || (i == |events| && Hop(e, forwarder, n, dst))
      ensures HopAt(events, i, forwarder, n, dst) ==> 0 <= i < |events|
    {
      HopNext(events, e, now, i, forwarder, n, dst);
    }
  }

  lemma LastHopNext(w: Forwards, events: Trace, e: Event, now: real, forwarder: Mac, dst: Address, w': Forwards)
    requires LastHop(w, events, forwarder, dst)
    requires if e.ForwardedData? then w' == NoteForward(w, e.forwarder, e.nextHop, e.dst) else w' == w
    ensures LastHop(w', events + [(e, now)], forwarder, dst)
  {
    HopsNext(events, e, now, forwarder);
    hide HopAt;
    var more := events + [(e, now)];
    if (forwarder, dst) in w'.last {
      if e.ForwardedData? && Hop(e, forwarder, e.nextHop, dst) {
        assert HopAt(more, |events|, forwarder, w'.last[(forwarder, dst)], dst);
      } else {
        var i :| HopAt(events, i, forwarder, w.last[(forwarder, dst)], dst) && forall j, n :: HopAt(events, j, forwarder, n, dst) ==> j <= i;
        assert HopAt(more, i, forwarder, w'.last[(forwarder, dst)], dst);
      }
    }
  }

  lemma ReroutedStays(events: Trace, e: Event, now: real, forwarder: Mac)
    requires Rerouted(events, forwarder)
    ensures Rerouted(events + [(e, now)], forwarder)
  {
    HopsNext(events, e, now, forwarder);
    hide HopAt;
    var i, j, n: Mac, m: Mac, dst: Address :| HopAt(events, i, forwarder, n, dst) && HopAt(events, j, forwarder, m, dst) && n != m;
    assert HopAt(events + [(e, now)], i, forwarder, n, dst) && HopAt(events + [(e, now)], j, forwarder, m, dst);
  }

  lemma ReroutedNow(w: Forwards, events: Trace, e: Event, now: real, forwarder: Mac)
    requires e.ForwardedData? && Hop(e, forwarder, e.nextHop, e.dst) && LastHop(w, events, forwarder, e.dst)
    requires (forwarder, e.dst) in w.last && w.last[(forwarder, e.dst)] != e.nextHop
    ensures Rerouted(events + [(e, now)], forwarder)
  {
    HopsNext(events, e, now, forwarder);
    hide HopAt;
    var i :| HopAt(events, i, forwarder, w.last[(forwarder, e.dst)], e.dst);
    assert HopAt(events + [(e, now)], i, forwarder, w.last[(forwarder, e.dst)], e.dst);
    assert HopAt(events + [(e, now)], |events|, forwarder, e.nextHop, e.dst);
  }

  lemma ReroutedBefore(w: Forwards, events: Trace, e: Event, now: real, forwarder: Mac)
    requires Rerouted(events + [(e, now)], forwarder)
    requires forall dst :: LastHop(w, events, forwarder, dst)
    requires e.ForwardedData? && Hop(e, forwarder, e.nextHop, e.dst) && (forwarder, e.dst) in w.last ==> w.last[(forwarder, e.dst)] == e.nextHop
    ensures Rerouted(events, forwarder)
  {
    HopsNext(events, e, now, forwarder);
    hide HopAt;
    var more := events + [(e, now)];
    var i, j, n: Mac, m: Mac, dst: Address :| HopAt(more, i, forwarder, n, dst) && HopAt(more, j, forwarder, m, dst) && n != m;
    assert LastHop(w, events, forwarder, dst);
    if i == |events| || j == |events| {
      assert (forwarder, dst) in w.last;
      var k :| HopAt(events, k, forwarder, w.last[(forwarder, dst)], dst);
      assert Rerouted(events, forwarder);
    }
  }

  lemma ForwardsAfter(a: Air, e: Event, now: real)
    ensures var w, w' := a.forwards, AirAfter(a, e, now).forwards;
      if e.ForwardedData? then w' == NoteForward(w, e.forwarder, e.nextHop, e.dst) else w' == w
  {
  }

  lemma {:induction false} LastHops(phy: bool, events: Trace, forwarder: Mac, dst: Address)
    ensures LastHop(AirOf(phy, events).forwards, events, forwarder, dst)
  {
    hide AirAfter, NoteForward;
    if events != [] {
      hide AirOf, LastHop;
      var before, e, now := events[..|events| - 1], events[|events| - 1].0, events[|events| - 1].1;
      LastHops(phy, before, forwarder, dst);
      AirGrows(phy, events);
      ForwardsAfter(AirOf(phy, before), e, now);
      LastHopNext(AirOf(phy, before).forwards, before, e, now, forwarder, dst, AirOf(phy, events).forwards);
      assert events == before + [(e, now)];
    }
  }

  lemma ChangedNext(w: Forwards, events: Trace, e: Event, now: real, forwarder: Mac, w': Forwards)
    requires forwarder in w.changed <==> Rerouted(events, forwarder)
    requires forall dst :: LastHop(w, events, forwarder, dst)
    requires if e.ForwardedData? then w' == NoteForward(w, e.forwarder, e.nextHop, e.dst) else w' == w
    ensures forwarder in w'.changed <==> Rerouted(events + [(e, now)], forwarder)
  {
    hide Rerouted;
    if Rerouted(events, forwarder) {
      ReroutedStays(events, e, now, forwarder);
    } else if e.ForwardedData? && Hop(e, forwarder, e.nextHop, e.dst) && (forwarder, e.dst) in w.last && w.last[(forwarder, e.dst)] != e.nextHop {
      assert LastHop(w, events, forwarder, e.dst);
      ReroutedNow(w, events, e, now, forwarder);
    } else if Rerouted(events + [(e, now)], forwarder) {
      ReroutedBefore(w, events, e, now, forwarder);
    }
  }

  /** A forwarder is marked exactly when two of its frames for one destination went
      to different next hops. */
  lemma {:induction false} ForwarderChanged(phy: bool, events: Trace, forwarder: Mac)
    ensures forwarder in AirOf(phy, events).forwards.changed <==> Rerouted(events, forwarder)
  {
    hide AirAfter, NoteForward, LastHop, HopAt;
    if events == [] {
      NotRerouted(forwarder);
    } else {
      hide AirOf, Rerouted;
      var before, e, now := events[..|events| - 1], events[|events| - 1].0, events[|events| - 1].1;
      ForwarderChanged(phy, before, forwarder);
      AirGrows(phy, events);
      ForwardsAfter(AirOf(phy, before), e, now);
      forall dst ensures LastHop(AirOf(phy, before).forwards, before, forwarder, dst) { LastHops(phy, before, forwarder, dst); }
      ChangedNext(AirOf(phy, before).forwards, before, e, now, forwarder, AirOf(phy, events).forwards);
      assert events == before + [(e, now)];
    }
  }

  lemma NotRerouted(forwarder: Mac)
    ensures !Rerouted([], forwarder)
  {
  }
}
