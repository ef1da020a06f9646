/** The collector's state after any trace of observations. */
module CollectorTraces {
  import opened Airwaves
  import opened Collector
  import opened Edges
  import opened MapSums

  datatype State = State(counts: Counts, serials: Serials, selectors: Selectors, addresses: Addresses, links: Links,
                         messages: Messages, air: Air)

  /** The state after a reset, with or without the PHY trace. */
  function Fresh(phyAvailable: bool): State {
    State(NO_COUNTS, NO_SERIALS, NO_SELECTORS, NO_ADDRESSES, NO_LINKS, NO_MESSAGES, NoAir(phyAvailable))
  }

  datatype Event =
    | HeardTc(tc: Tc)
    | HeardMid(size: nat)
    | HeardHna(size: nat)
    | SentData(flow: Flow, bytes: nat)
    | DeliveredData(flow: Flow, ttl: nat, latency: real, firstHop: Mac)
    | CreditedBytes(bytes: nat)
    | SawFrame(duration: real, isData: bool, isRetry: bool)
    | RelayedTc(originator: Address, msgSeq: nat, hops: nat, transmitter: Mac)
    | ForwardedData(forwarder: Mac, nextHop: Mac, dst: Address)

  function NoteTc(s: State, tc: Tc, now: real): State {
    State(CountTc(s.counts, tc, now), NoteSerial(s.serials, tc, now), NoteSelectors(s.selectors, tc), SeeTc(s.addresses, tc, now),
          SeeLinks(s.links, tc.originator, tc.neighbors, now), NoteMessage(s.messages, tc), s.air)
  }

  function NoteSent(s: State, f: Flow, bytes: nat, now: real): State {
    s.(counts := CountData(s.counts, bytes), addresses := SeeData(s.addresses, f.src, now), air := SendData(s.air, f, bytes, now))
  }

  /** What the observations other than a first transmission make of the air. */
  function NoteAir(a: Air, e: Event, now: real): Air {
    match e
    case DeliveredData(f, ttl, latency, mac) => DeliverData(a, f, ttl, latency, mac)
    case CreditedBytes(bytes) => a.(data := Credit(a.data, bytes))
    case SawFrame(duration, isData, isRetry) => a.(frames := NoteFrame(a.frames, duration, isData, isRetry, now))
    case RelayedTc(originator, msgSeq, hops, mac) => a.(relays := NoteRelay(a.relays, originator, msgSeq, hops, mac))
    case ForwardedData(forwarder, nextHop, dst) => a.(forwards := NoteForward(a.forwards, forwarder, nextHop, dst))
    case _ => a
  }

  function Note(s: State, e: Event, now: real): State {
    match e
    case HeardTc(tc) => NoteTc(s, tc, now)
    case HeardMid(size) => s.(counts := CountMid(s.counts, size, now))
    case HeardHna(size) => s.(counts := CountHna(s.counts, size, now))
    case SentData(f, bytes) => NoteSent(s, f, bytes, now)
    case _ => s.(air := NoteAir(s.air, e, now))
  }

  /** Observations with their times. */
  type Trace = seq<(Event, real)>

  function Run(phy: bool, events: Trace): State {
    if events == [] then Fresh(phy)
    else
      var (e, now) := events[|events| - 1];
      Note(Run(phy, events[..|events| - 1]), e, now)
  }

  /** The state after several observations at one time. */
  function NoteAll(s: State, es: seq<Event>, now: real): State
    decreases |es|
  {
    if es == [] then s else NoteAll(Note(s, es[0], now), es[1..], now)
  }

  lemma {:induction false} NoteAppend(s: State, es: seq<Event>, fs: seq<Event>, now: real)
    ensures NoteAll(s, es + fs, now) == NoteAll(NoteAll(s, es, now), fs, now)
    decreases |es|
  {
    hide Note;
    if es == [] {
      assert es + fs == fs;
    } else {
      assert (es + fs)[0] == es[0] && (es + fs)[1..] == es[1..] + fs;
      NoteAppend(Note(s, es[0], now), es[1..], fs, now);
    }
  }

  function Stamped(es: seq<Event>, now: real): Trace {
    seq(|es|, i requires 0 <= i < |es| => (es[i], now))
  }

  /** Observations at one time are a trace like any other. */
  lemma {:induction false} NoteAllRuns(phy: bool, events: Trace, es: seq<Event>, now: real)
    ensures Run(phy, events + Stamped(es, now)) == NoteAll(Run(phy, events), es, now)
    decreases |es|
  {
    hide Note;
    if es == [] {
      assert events + Stamped(es, now) == events;
    } else {
      var more := events + [(es[0], now)];
      assert more[..|more| - 1] == events;
      assert events + Stamped(es, now) == more + Stamped(es[1..], now);
      NoteAllRuns(phy, more, es[1..], now);
    }
  }

  // ------------------------------------------- redundant counters in agreement

  /** The first sequence number each sender used. */
  ghost function FirstSerials(events: Trace): map<Address, nat> {
    if events == [] then map[]
    else
      var first, e := FirstSerials(events[..|events| - 1]), events[|events| - 1].0;
      if e.HeardTc? then NoteFirst(first, e.tc) else first
  }

  ghost predicate Agree(s: State, first: map<Address, nat>) {
    && CountsAgree(s.counts, s.air.data.packets, s.air.data.bytes)
    && SerialsAgree(s.serials, first, s.counts.tc)
    && SelectorsAgree(s.selectors, s.counts.tc)
    && AddressesAgree(s.addresses)
    && MessagesAgree(s.messages, s.counts, s.addresses.inPayload)
    && s.addresses.sentTc == s.counts.bySender.Keys
    && AirAgrees(s.air)
  }

  lemma NoteTcAgrees(s: State, first: map<Address, nat>, tc: Tc, now: real)
    requires Agree(s, first)
    ensures Agree(NoteTc(s, tc, now), NoteFirst(first, tc))
  {
    hide CountsAgree, SerialsAgree, SelectorsAgree, AddressesAgree, MessagesAgree, AirAgrees;
    hide NoteSerial, NoteSelectors, SeeTc, SeeLinks, NoteFirst, NoteMessage, Add, At;
    CountTcAgrees(s.counts, s.air.data.packets, s.air.data.bytes, tc, now);
    NoteSerialAgrees(s.serials, first, s.counts.tc, tc, now);
    NoteSelectorsAgrees(s.selectors, s.counts.tc, tc);
    SeeTcAgrees(s.addresses, tc, now);
    NoteMessageAgrees(s.messages, s.counts, s.addresses.inPayload, tc, now);
    SeeTcRoles(s, tc, now);
  }

  lemma SeeTcRoles(s: State, tc: Tc, now: real)
    ensures var d := SeeTc(s.addresses, tc, now);
      && d.inPayload == s.addresses.inPayload + (set a | a in tc.neighbors)
      && d.sentTc == s.addresses.sentTc + {tc.originator}
    ensures CountTc(s.counts, tc, now).bySender.Keys == s.counts.bySender.Keys + {tc.originator}
  {
    var e := See(s.addresses.(sentTc := s.addresses.sentTc + {tc.originator}), tc.originator, now);
    AdvertisedSeen(e, tc.neighbors, now);
    AdvertisedSenders(e, tc.neighbors, now);
    hide SeeAdvertised;
  }

  lemma {:induction false} AdvertisedSenders(d: Addresses, neighbors: seq<Address>, now: real)
    ensures SeeAdvertised(d, neighbors, now).sentTc == d.sentTc
  {
    if neighbors != [] { AdvertisedSenders(d, neighbors[..|neighbors| - 1], now); }
  }

  lemma SeeDataAgrees(d: Addresses, src: Address, now: real)
    requires AddressesAgree(d)
    ensures AddressesAgree(SeeData(d, src, now))
    ensures SeeData(d, src, now).sentTc == d.sentTc && SeeData(d, src, now).inPayload == d.inPayload
  {
  }

  lemma NoteSentAgrees(s: State, first: map<Address, nat>, f: Flow, bytes: nat, now: real)
    requires Agree(s, first)
    ensures Agree(NoteSent(s, f, bytes, now), first)
  {
    hide CountsAgree, SerialsAgree, SelectorsAgree, AddressesAgree, MessagesAgree, AirAgrees;
    hide SeeData, Add, At, NoteFlight;
    CountOthersAgree(s.counts, s.air.data.packets, s.air.data.bytes, bytes, now);
    SendAgrees(s.air, f, bytes, now);
    SeeDataAgrees(s.addresses, f.src, now);
    MessagesKept(s.messages, s.counts, s.addresses.inPayload, bytes);
  }

  lemma MessagesKept(m: Messages, c: Counts, inPayload: set<Address>, bytes: nat)
    requires MessagesAgree(m, c, inPayload)
    ensures MessagesAgree(m, CountData(c, bytes), inPayload)
  {
    hide SumBy, TotalSize;
  }

  lemma NoteAirAgrees(a: Air, e: Event, now: real)
    requires AirAgrees(a)
    ensures AirAgrees(NoteAir(a, e, now))
    ensures NoteAir(a, e, now).data.packets == a.data.packets && NoteAir(a, e, now).data.bytes == a.data.bytes
  {
    hide Sampled, FlightsAgree, FirstHopsAgree, FramesAgree;
    hide Arrived;
    match e
    case DeliveredData(f, ttl, latency, mac) =>
      DeliverAgrees(a, f, ttl, latency, mac);
      ArrivedKeeps(a.data, f, ttl, latency);
    case CreditedBytes(bytes) => CreditAgrees(a, bytes);
    case SawFrame(duration, isData, isRetry) => FrameAgrees(a, duration, isData, isRetry, now);
    case _ =>
  }

  lemma NoteAgrees(s: State, first: map<Address, nat>, e: Event, now: real)
    requires Agree(s, first)
    ensures Agree(Note(s, e, now), if e.HeardTc? then NoteFirst(first, e.tc) else first)
  {
    hide CountsAgree, SerialsAgree, SelectorsAgree, AddressesAgree, AirAgrees;
    hide NoteTc, NoteSent, NoteAir, TotalSize, SumBy;
    match e
    case HeardTc(tc) => NoteTcAgrees(s, first, tc, now); hide Agree;
    case HeardMid(size) => CountOthersAgree(s.counts, s.air.data.packets, s.air.data.bytes, size, now);
    case HeardHna(size) => CountOthersAgree(s.counts, s.air.data.packets, s.air.data.bytes, size, now);
    case SentData(f, bytes) => NoteSentAgrees(s, first, f, bytes, now); hide Agree;
    case _ => NoteAirAgrees(s.air, e, now);
  }

  /** After any events since a reset the redundant counters agree. */
  lemma {:induction false} TracesAgree(phy: bool, events: Trace)
    ensures Agree(Run(phy, events), FirstSerials(events))
  {
    hide Note, NoteFirst, CountsAgree, SerialsAgree, SelectorsAgree, MessagesAgree, AirAgrees;
    if events == [] {
      NoCountsAgree();
      NoSerialsAgree();
      NoSelectorsAgree();
      NoMessagesAgree();
      NoAirAgrees(phy);
    } else {
      hide Agree;
      TracesAgree(phy, events[..|events| - 1]);
      NoteAgrees(Run(phy, events[..|events| - 1]), FirstSerials(events[..|events| - 1]), events[|events| - 1].0, events[|events| - 1].1);
    }
  }

  // ------------------------------------------------------ counts by kind

  datatype Kind = TcKind | MidKind | HnaKind | DataKind | OtherKind

  function KindOf(e: Event): Kind {
    match e
    case HeardTc(_) => TcKind
    case HeardMid(_) => MidKind
    case HeardHna(_) => HnaKind
    case SentData(_, _) => DataKind
    case _ => OtherKind
  }

  function SizeOf(e: Event): nat {
    match e
    case HeardTc(tc) => tc.size
    case HeardMid(size) => size
    case HeardHna(size) => size
    case SentData(_, bytes) => bytes
    case _ => 0
  }

  /** The sizes of the observations of one kind, in order. */
  function OfKind(events: Trace, k: Kind): seq<nat> {
    if events == [] then []
    else
      var before, e := OfKind(events[..|events| - 1], k), events[|events| - 1].0;
      if KindOf(e) == k then before + [SizeOf(e)] else before
  }

  function CountOf(s: State, k: Kind): nat
    requires k != OtherKind
  {
    match k case TcKind => s.counts.tc case MidKind => s.counts.mid case HnaKind => s.counts.hna case DataKind => s.air.data.packets
  }

  function BytesOf(s: State, k: Kind): nat
    requires k != OtherKind
  {
    match k case TcKind => s.counts.tcBytes case MidKind => s.counts.midBytes case HnaKind => s.counts.hnaBytes case DataKind => s.air.data.bytes
  }

  lemma OneKind(s: State, e: Event, now: real, k: Kind)
    requires k != OtherKind
    ensures CountOf(Note(s, e, now), k) == CountOf(s, k) + if KindOf(e) == k then 1 else 0
    ensures BytesOf(Note(s, e, now), k) == BytesOf(s, k) + if KindOf(e) == k then SizeOf(e) else 0
  {
    hide Add, NoteSerial, NoteSelectors, SeeTc, SeeLinks, SeeData, NoteMessage, Arrived, NoteFlight, NoteFirstHop, NoteFrame, NoteRelay, NoteForward;
    if e.DeliveredData? { ArrivedKeeps(s.air.data, e.flow, e.ttl, e.latency); }
  }

  /** Each kind's message and byte counts are those of the trace. */
  lemma {:induction false} KindsCounted(phy: bool, events: Trace, k: Kind)
    requires k != OtherKind
    ensures CountOf(Run(phy, events), k) == |OfKind(events, k)|
    ensures BytesOf(Run(phy, events), k) == TotalSize(OfKind(events, k))
  {
    if events != [] {
      hide Note, TotalSize, CountOf, BytesOf;
      var before, e, now := events[..|events| - 1], events[|events| - 1].0, events[|events| - 1].1;
      KindsCounted(phy, before, k);
      OneKind(Run(phy, before), e, now, k);
      TotalPush(OfKind(before, k), SizeOf(e));
    }
  }

  // --------------------------------------------------- one sender's records

  /** The topology messages of one sender, with their times. */
  ghost function From(events: Trace, a: Address): seq<(Tc, real)> {
    if events == [] then []
    else
      var past, e := From(events[..|events| - 1], a), events[|events| - 1];
      if e.0.HeardTc? && e.0.tc.originator == a then past + [(e.0.tc, e.1)] else past
  }

  /** The advertised sets of the messages, and the gaps between them. */
  ghost predicate HistoryOf(history: seq<set<Address>>, from: seq<(Tc, real)>) {
    |history| == |from| && forall i :: 0 <= i < |from| ==> history[i] == set x | x in from[i].0.neighbors
  }

  ghost predicate GapsOf(gaps: seq<real>, from: seq<(Tc, real)>) {
    |gaps| == (if from == [] then 0 else |from| - 1) && forall i :: 0 <= i < |gaps| ==> gaps[i] == from[i + 1].1 - from[i].1
  }

  ghost predicate EndsOf(s: Serials, first: map<Address, nat>, a: Address, from: seq<(Tc, real)>) {
    && (a in s.last <==> from != []) && (a in s.lastTime <==> from != []) && (a in first <==> from != [])
    && (from != [] ==> s.last[a] == from[|from| - 1].0.ansn && s.lastTime[a] == from[|from| - 1].1 && first[a] == from[0].0.ansn)
  }

  ghost predicate Recorded(s: State, first: map<Address, nat>, a: Address, from: seq<(Tc, real)>) {
    && At(s.counts.bySender, a) == |from|
    && HistoryOf(List(s.selectors.history, a), from)
    && GapsOf(List(s.serials.gaps, a), from)
    && EndsOf(s.serials, first, a, from)
  }

  lemma HistoryNext(history: seq<set<Address>>, from: seq<(Tc, real)>, tc: Tc, now: real)
    requires HistoryOf(history, from)
    ensures HistoryOf(history + [set x | x in tc.neighbors], from + [(tc, now)])
  {
  }

  lemma GapsNext(s: Serials, a: Address, from: seq<(Tc, real)>, tc: Tc, now: real)
    requires GapsOf(List(s.gaps, a), from) && (a in s.lastTime <==> from != [])
    requires from != [] ==> a in s.lastTime && s.lastTime[a] == from[|from| - 1].1
    ensures GapsOf(List(NoteSerial(s, tc, now).gaps, a), if tc.originator == a then from + [(tc, now)] else from)
  {
    hide SignedDelta;
  }

  lemma EndsNext(s: Serials, first: map<Address, nat>, a: Address, from: seq<(Tc, real)>, tc: Tc, now: real)
    requires EndsOf(s, first, a, from)
    ensures EndsOf(NoteSerial(s, tc, now), NoteFirst(first, tc), a, if tc.originator == a then from + [(tc, now)] else from)
  {
    hide SignedDelta, List;
  }

  lemma NoteRecords(s: State, first: map<Address, nat>, a: Address, from: seq<(Tc, real)>, tc: Tc, now: real)
    requires Recorded(s, first, a, from)
    ensures Recorded(NoteTc(s, tc, now), NoteFirst(first, tc), a, if tc.originator == a then from + [(tc, now)] else from)
  {
    hide HistoryOf, GapsOf, NoteSerial, SeeTc, SeeLinks, NoteMessage, Members;
    HistoryNext(List(s.selectors.history, a), from, tc, now);
    assert GapsOf(List(NoteSerial(s.serials, tc, now).gaps, a), if tc.originator == a then from + [(tc, now)] else from) by {
      GapsNext(s.serials, a, from, tc, now);
    }
    EndsNext(s.serials, first, a, from, tc, now);
    hide EndsOf;
  }

  /** Every sender's records are those of its own messages, whatever else was heard. */
  lemma {:induction false} SendersRecorded(phy: bool, events: Trace, a: Address)
    ensures Recorded(Run(phy, events), FirstSerials(events), a, From(events, a))
  {
    hide Recorded, NoteFirst;
    if events == [] {
      NothingRecorded(phy, a);
    } else {
      var before, e, now := events[..|events| - 1], events[|events| - 1].0, events[|events| - 1].1;
      SendersRecorded(phy, before, a);
      if e.HeardTc? {
        NoteRecords(Run(phy, before), FirstSerials(before), a, From(before, a), e.tc, now);
      } else {
        OthersRecordNothing(Run(phy, before), FirstSerials(before), a, From(before, a), e, now);
      }
      hide Note;
    }
  }

  lemma NothingRecorded(phy: bool, a: Address)
    ensures Recorded(Fresh(phy), map[], a, [])
  {
  }

  lemma OthersRecordNothing(s: State, first: map<Address, nat>, a: Address, from: seq<(Tc, real)>, e: Event, now: real)
    requires Recorded(s, first, a, from) && !e.HeardTc?
    ensures Recorded(Note(s, e, now), first, a, from)
  {
    hide HistoryOf, GapsOf, EndsOf;
  }

  // ---------------------------------------------------------- first and last seen

  /** The observation sends from the address or advertises it. */
  ghost predicate Mentions(e: Event, a: Address) {
    match e
    case HeardTc(tc) => tc.originator == a || a in tc.neighbors
    case SentData(f, _) => f.src == a
    case _ => false
  }

  /** One of the links from x to ys is the edge. */
  ghost predicate Among(x: Address, ys: seq<Address>, edge: Edge) {
    exists y :: y in ys && Canonical(x, y) == edge
  }

  ghost predicate Advertises(e: Event, edge: Edge) {
    e.HeardTc? && Among(e.tc.originator, e.tc.neighbors, edge)
  }

  ghost function Mentioning(): (Event, Address) -> bool {
    (e: Event, a: Address) => Mentions(e, a)
  }

  ghost function Advertising(): (Event, Edge) -> bool {
    (e: Event, edge: Edge) => Advertises(e, edge)
  }

  ghost predicate FirstAt<X(!new)>(events: Trace, about: (Event, X) -> bool, x: X, t: real) {
    exists i :: 0 <= i < |events| && about(events[i].0, x) && events[i].1 == t && forall j :: 0 <= j < i ==> !about(events[j].0, x)
  }

  ghost predicate LastAt<X(!new)>(events: Trace, about: (Event, X) -> bool, x: X, t: real) {
    exists i :: 0 <= i < |events| && about(events[i].0, x) && events[i].1 == t && forall j :: i < j < |events| ==> !about(events[j].0, x)
  }

  ghost predicate Never<X(!new)>(events: Trace, about: (Event, X) -> bool, x: X) {
    forall i :: 0 <= i < |events| ==> !about(events[i].0, x)
  }

  /** first and last tell when x was first and last observed. */
  ghost predicate TimesOf<X(!new)>(first: map<X, real>, last: map<X, real>, events: Trace, about: (Event, X) -> bool, x: X) {
    && (x in first <==> x in last)
    && (x !in first ==> Never(events, about, x))
    && (x in first && x in last ==> FirstAt(events, about, x, first[x]) && LastAt(events, about, x, last[x]))
  }

  /** One more observation: seen now, or as before. */
  ghost predicate TimesNext<X(!new)>(first: map<X, real>, last: map<X, real>, first': map<X, real>, last': map<X, real>, seen: bool, x: X, now: real) {
    if seen then x in first' && x in last' && last'[x] == now && first'[x] == if x in first then first[x] else now
    else
      && (x in first' <==> x in first) && (x in last' <==> x in last)
      && (x in first && x in first' ==> first'[x] == first[x]) && (x in last && x in last' ==> last'[x] == last[x])
  }

  lemma TimesGrow<X(!new)>(first: map<X, real>, last: map<X, real>, first': map<X, real>, last': map<X, real>,
      events: Trace, about: (Event, X) -> bool, x: X, e: Event, now: real)
    requires TimesOf(first, last, events, about, x) && TimesNext(first, last, first', last', about(e, x), x, now)
    ensures TimesOf(first', last', events + [(e, now)], about, x)
  {
    var more := events + [(e, now)];
    if x in first {
      FirstStays(events, about, x, first[x], e, now);
      if !about(e, x) { LastStays(events, about, x, last[x], e, now); }
    }
    if about(e, x) { assert LastAt(more, about, x, now) by { assert more[|events|] == (e, now); } }
    if about(e, x) && x !in first { assert FirstAt(more, about, x, now) by { assert more[|events|] == (e, now); } }
    hide FirstAt, LastAt;
  }

  lemma FirstStays<X(!new)>(events: Trace, about: (Event, X) -> bool, x: X, t: real, e: Event, now: real)
    requires FirstAt(events, about, x, t)
    ensures FirstAt(events + [(e, now)], about, x, t)
  {
    var i :| 0 <= i < |events| && about(events[i].0, x) && events[i].1 == t && forall j :: 0 <= j < i ==> !about(events[j].0, x);
    assert (events + [(e, now)])[i] == events[i];
  }

  lemma LastStays<X(!new)>(events: Trace, about: (Event, X) -> bool, x: X, t: real, e: Event, now: real)
    requires LastAt(events, about, x, t) && !about(e, x)
    ensures LastAt(events + [(e, now)], about, x, t)
  {
    var i :| 0 <= i < |events| && about(events[i].0, x) && events[i].1 == t && forall j :: i < j < |events| ==> !about(events[j].0, x);
    assert (events + [(e, now)])[i] == events[i];
  }

  lemma {:induction false} AdvertisedTimes(d: Addresses, neighbors: seq<Address>, now: real, a: Address)
    ensures var e := SeeAdvertised(d, neighbors, now);
      TimesNext(d.firstSeen, d.lastSeen, e.firstSeen, e.lastSeen, a in neighbors, a, now)
  {
    if neighbors != [] {
      AdvertisedTimes(d, neighbors[..|neighbors| - 1], now, a);
      assert neighbors == neighbors[..|neighbors| - 1] + [neighbors[|neighbors| - 1]];
    }
  }

  lemma AddressTimesNext(s: State, e: Event, now: real, a: Address)
    ensures var n := Note(s, e, now).addresses;
      TimesNext(s.addresses.firstSeen, s.addresses.lastSeen, n.firstSeen, n.lastSeen, Mentioning()(e, a), a, now)
  {
    if e.HeardTc? {
      var tc := e.tc;
      AdvertisedTimes(See(s.addresses.(sentTc := s.addresses.sentTc + {tc.originator}), tc.originator, now), tc.neighbors, now, a);
      hide SeeAdvertised, CountTc, NoteSerial, NoteSelectors, SeeLinks;
    }
  }

  lemma AmongNext(x: Address, ys: seq<Address>, y: Address, edge: Edge)
    ensures Among(x, ys + [y], edge) <==> Among(x, ys, edge) || Canonical(x, y) == edge
  {
    assert y in ys + [y];
    if Among(x, ys, edge) {
      var z :| z in ys && Canonical(x, z) == edge;
      assert z in ys + [y];
    }
  }

  lemma {:induction false} LinkTimesNext(g: Links, x: Address, ys: seq<Address>, now: real, edge: Edge)
    ensures var h := SeeLinks(g, x, ys, now);
      TimesNext(g.firstSeen, g.lastSeen, h.firstSeen, h.lastSeen, Among(x, ys, edge), edge, now)
  {
    if ys != [] {
      LinkTimesNext(g, x, ys[..|ys| - 1], now, edge);
      AmongNext(x, ys[..|ys| - 1], ys[|ys| - 1], edge);
      assert ys == ys[..|ys| - 1] + [ys[|ys| - 1]];
      hide Canonical, Among;
    }
  }

  /** An address's times are those of the first and last observations that mention it. */
  lemma {:induction false} AddressTimes(phy: bool, events: Trace, a: Address)
    ensures var d := Run(phy, events).addresses; TimesOf(d.firstSeen, d.lastSeen, events, Mentioning(), a)
  {
    hide TimesOf, TimesNext, Note, Mentioning;
    if events == [] {
      NeverSeen<Address>(Mentioning(), a);
    } else {
      var before, e, now := events[..|events| - 1], events[|events| - 1].0, events[|events| - 1].1;
      AddressTimes(phy, before, a);
      AddressTimesNext(Run(phy, before), e, now, a);
      var d, n := Run(phy, before).addresses, Run(phy, events).addresses;
      TimesGrow(d.firstSeen, d.lastSeen, n.firstSeen, n.lastSeen, before, Mentioning(), a, e, now);
      assert events == before + [(e, now)];
    }
  }

  lemma NeverSeen<X(!new)>(about: (Event, X) -> bool, x: X)
    ensures TimesOf(map[], map[], [], about, x)
  {
  }

  lemma EdgeTimesNext(s: State, e: Event, now: real, edge: Edge)
    ensures var h := Note(s, e, now).links;
      TimesNext(s.links.firstSeen, s.links.lastSeen, h.firstSeen, h.lastSeen, Advertising()(e, edge), edge, now)
  {
    if e.HeardTc? {
      LinkTimesNext(s.links, e.tc.originator, e.tc.neighbors, now, edge);
      hide SeeLinks, CountTc, NoteSerial, NoteSelectors, SeeTc, Among;
    }
  }

  /** An edge's times are those of the first and last messages that advertise it. */
  lemma {:induction false} EdgeTimes(phy: bool, events: Trace, edge: Edge)
    ensures var g := Run(phy, events).links; TimesOf(g.firstSeen, g.lastSeen, events, Advertising(), edge)
  {
    hide TimesOf, TimesNext, Note, Advertising;
    if events == [] {
      NeverSeen<Edge>(Advertising(), edge);
    } else {
      var before, e, now := events[..|events| - 1], events[|events| - 1].0, events[|events| - 1].1;
      EdgeTimes(phy, before, edge);
      EdgeTimesNext(Run(phy, before), e, now, edge);
      var g, h := Run(phy, before).links, Run(phy, events).links;
      TimesGrow(g.firstSeen, g.lastSeen, h.firstSeen, h.lastSeen, before, Advertising(), edge, e, now);
      assert events == before + [(e, now)];
    }
  }

  ghost predicate InOrder(events: Trace) {
    forall i, j :: 0 <= i < j < |events| ==> events[i].1 <= events[j].1
  }

  lemma NoteKeepsLinks(s: State, e: Event, before: real, now: real)
    requires LinksAgree(s.links, before) && before <= now
    ensures LinksAgree(Note(s, e, now).links, now)
  {
    if e.HeardTc? { SeeLinksAgrees(s.links, e.tc.originator, e.tc.neighbors, before, now); }
    hide SeeLinks, Undirected, CountTc, NoteSerial, NoteSelectors, SeeTc;
  }

  lemma LinksLater(g: Links, before: real, now: real)
    requires LinksAgree(g, before) && before <= now
    ensures LinksAgree(g, now)
  {
  }

  /** When time does not run backwards the edges are those of the directed pairs,
      first seen no later than last seen. */
  lemma {:induction false} LinksOfTrace(phy: bool, events: Trace, now: real)
    requires InOrder(events) && (events != [] ==> events[|events| - 1].1 <= now)
    ensures LinksAgree(Run(phy, events).links, now)
  {
    if events != [] {
      var before := events[..|events| - 1];
      var (e, at) := events[|events| - 1];
      assert forall i, j :: 0 <= i < j < |before| ==> before[i] == events[i] && before[j] == events[j];
      LinksOfTrace(phy, before, at);
      NoteKeepsLinks(Run(phy, before), e, at, at);
      LinksLater(Run(phy, events).links, at, now);
      hide Note, LinksAgree;
    }
  }
}
