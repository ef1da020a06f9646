/** When packets count as sent and delivered, told by the positions of callbacks in
    the sequence that fired. */
module PacketTimes {
  import opened Airwaves
  import opened CollectorTraces
  import opened Edges
  import opened MapSums
  import opened PacketLedger

  // ------------------------------------------------------- positions in the sequence

  ghost predicate RejectedBefore(events: seq<Callback>, n: int) {
    exists i :: 0 <= i < n && i < |events| && events[i].Reject?
  }

  ghost predicate Opens(events: seq<Callback>, i: int) {
    0 <= i < |events| && events[i].StartWindow? && !RejectedBefore(events, i)
  }

  ghost predicate Closes(events: seq<Callback>, i: int) {
    0 <= i < |events| && events[i].EndWindow? && !RejectedBefore(events, i)
  }

  /** A window was opened before n and not closed since. */
  ghost predicate OpenAt(events: seq<Callback>, n: int) {
    exists i :: 0 <= i < n && Opens(events, i) && forall j :: i < j < n ==> !Closes(events, j)
  }

  /** The packet is transmitted while a window is open. */
  ghost predicate SentAt(events: seq<Callback>, i: int, key: Key) {
    0 <= i < |events| && events[i].IpTx? && events[i].key == key && OpenAt(events, i)
  }

  /** A data frame with the packet goes to the MAC of the flow's destination. */
  ghost predicate LastHopAt(setup: Setup, events: seq<Callback>, i: int, key: Key) {
    && 0 <= i < |events| && events[i].PhyTx? && setup.phyAvailable
    && !events[i].frame.isControl && events[i].frame.isData
    && events[i].frame.payload.FlowData? && events[i].frame.payload.key == key
    && key.flow.dst in setup.dstMac && events[i].frame.addr1 == setup.dstMac[key.flow.dst]
  }

  ghost predicate Clears(setup: Setup, events: seq<Callback>, i: int, key: Key) {
    Opens(events, i) || Closes(events, i) || LastHopAt(setup, events, i, key)
  }

  /** The packet was transmitted at i, and before n neither took its last hop since
      nor did a window open or close. */
  ghost predicate Pending(setup: Setup, events: seq<Callback>, n: int, key: Key, i: int) {
    0 <= i < n && SentAt(events, i, key) && forall j :: i < j < n ==> !Clears(setup, events, j, key)
  }

  ghost predicate FirstPending(setup: Setup, events: seq<Callback>, n: int, key: Key, i: int) {
    Pending(setup, events, n, key, i) && forall j :: j < i ==> !Pending(setup, events, n, key, j)
  }

  ghost predicate LastPending(setup: Setup, events: seq<Callback>, n: int, key: Key, i: int) {
    Pending(setup, events, n, key, i) && forall j :: j > i ==> !Pending(setup, events, n, key, j)
  }

  /** The relay that sent the packet next after its source, as far as its MAC is known. */
  ghost predicate RelayedBy(setup: Setup, events: seq<Callback>, n: int, key: Key, i: int, mac: Mac) {
    if mac == NO_MAC then forall j :: j > i && Pending(setup, events, n, key, j) ==> events[j].node == NO_MAC
    else
      exists j :: j > i && Pending(setup, events, n, key, j) && events[j].node == mac
        && forall k :: i < k < j && Pending(setup, events, n, key, k) ==> events[k].node == NO_MAC
  }

  /** The pending transmissions of the packet. */
  ghost function AllPending(setup: Setup, events: seq<Callback>, n: int, key: Key): set<int> {
    set i | 0 <= i < n && Pending(setup, events, n, key, i)
  }

  // ----------------------------------------------------------- the ledger agrees

  ghost predicate TellsFirst(setup: Setup, events: seq<Callback>, n: int, key: Key, r: Record) {
    forall i :: FirstPending(setup, events, n, key, i) ==>
      r.firstSeen == events[i].now && r.bytes == events[i].bytes && RelayedBy(setup, events, n, key, i, r.firstHop)
  }

  ghost predicate TellsLast(setup: Setup, events: seq<Callback>, n: int, key: Key, r: Record) {
    forall i :: LastPending(setup, events, n, key, i) ==> r.lastSeen == events[i].now && r.lastTtl == events[i].ttl
  }

  ghost predicate RecordTells(setup: Setup, events: seq<Callback>, n: int, key: Key, r: Record) {
    && r.flow == key.flow && r.observations == |AllPending(setup, events, n, key)|
    && TellsFirst(setup, events, n, key, r) && TellsLast(setup, events, n, key, r)
  }

  /** The packet is on the air exactly when a transmission of it is pending, with the
      time and size of the first such, the relay after it, time and TTL of the last, and
      their number. */
  ghost predicate Known(setup: Setup, events: seq<Callback>, n: int, key: Key, onAir: map<Key, Record>) {
    && (key in onAir <==> exists i :: Pending(setup, events, n, key, i))
    && (key in onAir ==> RecordTells(setup, events, n, key, onAir[key]))
  }

  ghost predicate Follows(setup: Setup, events: seq<Callback>, n: int, l: Ledger) {
    && (l.rejected <==> RejectedBefore(events, n))
    && (l.active <==> OpenAt(events, n))
    && (!l.active ==> l.onAir == map[])
    && forall key :: Known(setup, events, n, key, l.onAir)
  }

  lemma RejectedNext(events: seq<Callback>, n: nat)
    requires n < |events|
    ensures RejectedBefore(events, n + 1) <==> RejectedBefore(events, n) || events[n].Reject?
  {
  }

  lemma OpenNext(events: seq<Callback>, n: nat)
    requires n < |events|
    ensures OpenAt(events, n + 1) <==> Opens(events, n) || (OpenAt(events, n) && !Closes(events, n))
  {
    hide Opens, Closes;
    if OpenAt(events, n + 1) && !Opens(events, n) {
      var i :| 0 <= i < n + 1 && Opens(events, i) && forall j :: i < j < n + 1 ==> !Closes(events, j);
      assert i < n;
    }
    if Opens(events, n) { assert forall j :: n < j < n + 1 ==> !Closes(events, j); }
    if OpenAt(events, n) && !Closes(events, n) {
      var i :| 0 <= i < n && Opens(events, i) && forall j :: i < j < n ==> !Closes(events, j);
      assert forall j :: i < j < n + 1 ==> !Closes(events, j);
    }
  }

  lemma PendingNext(setup: Setup, events: seq<Callback>, n: nat, m: nat, key: Key, i: int)
    requires n < |events| && m == n + 1
    ensures Pending(setup, events, m, key, i) <==>
              (Pending(setup, events, n, key, i) && !Clears(setup, events, n, key)) || (i == n && SentAt(events, n, key))
    ensures Pending(setup, events, n, key, i) ==> 0 <= i < n && events[i].IpTx?
  {
    hide Clears;
    if Pending(setup, events, m, key, i) && i != n { assert !Clears(setup, events, n, key); }
  }

  lemma AllPendingNext(setup: Setup, events: seq<Callback>, n: nat, m: nat, key: Key)
    requires n < |events| && m == n + 1
    ensures forall i :: Pending(setup, events, m, key, i) <==>
              (Pending(setup, events, n, key, i) && !Clears(setup, events, n, key)) || (i == n && SentAt(events, n, key))
    ensures forall i :: Pending(setup, events, n, key, i) ==> 0 <= i < n && events[i].IpTx?
  {
    forall i
      ensures Pending(setup, events, m, key, i) <==>
                (Pending(setup, events, n, key, i) && !Clears(setup, events, n, key)) || (i == n && SentAt(events, n, key))
      ensures Pending(setup, events, n, key, i) ==> 0 <= i < n && events[i].IpTx?
    {
      PendingNext(setup, events, n, m, key, i);
    }
  }

  ghost predicate SamePending(setup: Setup, events: seq<Callback>, n: int, m: int, key: Key) {
    forall i :: Pending(setup, events, m, key, i) <==> Pending(setup, events, n, key, i)
  }

  lemma SameFirst(setup: Setup, events: seq<Callback>, n: nat, m: nat, key: Key, r: Record)
    requires SamePending(setup, events, n, m, key) && TellsFirst(setup, events, n, key, r)
    ensures TellsFirst(setup, events, m, key, r)
  {
    hide Pending;
  }

  lemma SameLast(setup: Setup, events: seq<Callback>, n: nat, m: nat, key: Key, r: Record)
    requires SamePending(setup, events, n, m, key) && TellsLast(setup, events, n, key, r)
    ensures TellsLast(setup, events, m, key, r)
  {
    hide Pending;
  }

  lemma SameCount(setup: Setup, events: seq<Callback>, n: nat, m: nat, key: Key)
    requires n < |events| && m == n + 1 && SamePending(setup, events, n, m, key)
    ensures AllPending(setup, events, m, key) == AllPending(setup, events, n, key)
  {
    AllPendingNext(setup, events, n, m, key);
    hide Pending, SentAt, Clears;
  }

  /** Nothing that concerns the packet. */
  lemma KnownStays(setup: Setup, events: seq<Callback>, n: nat, m: nat, key: Key, onAir: map<Key, Record>, onAir': map<Key, Record>)
    requires n < |events| && m == n + 1 && Known(setup, events, n, key, onAir)
    requires !SentAt(events, n, key) && !Clears(setup, events, n, key)
    requires (key in onAir' <==> key in onAir) && (key in onAir && key in onAir' ==> onAir'[key] == onAir[key])
    ensures Known(setup, events, m, key, onAir')
  {
    AllPendingNext(setup, events, n, m, key);
    hide Pending, SentAt, Clears, TellsFirst, TellsLast, AllPending;
    SameCount(setup, events, n, m, key);
    if key in onAir {
      SameFirst(setup, events, n, m, key, onAir[key]);
      SameLast(setup, events, n, m, key, onAir[key]);
    }
  }

  /** A window opens or closes, or the packet takes its last hop. */
  lemma KnownCleared(setup: Setup, events: seq<Callback>, n: nat, m: nat, key: Key, onAir': map<Key, Record>)
    requires n < |events| && m == n + 1 && Clears(setup, events, n, key) && key !in onAir'
    ensures Known(setup, events, m, key, onAir')
  {
    AllPendingNext(setup, events, n, m, key);
    assert !SentAt(events, n, key);
    hide Pending, SentAt, Clears;
  }

  lemma SentFirst(setup: Setup, events: seq<Callback>, n: nat, m: nat, key: Key, onAir: map<Key, Record>, r: Record)
    requires n < |events| && m == n + 1 && Known(setup, events, n, key, onAir) && SentAt(events, n, key)
    requires if key in onAir
             then r.firstSeen == onAir[key].firstSeen && r.bytes == onAir[key].bytes
                  && r.firstHop == if onAir[key].firstHop == NO_MAC then events[n].node else onAir[key].firstHop
             else r.firstSeen == events[n].now && r.bytes == events[n].bytes && r.firstHop == NO_MAC
    ensures TellsFirst(setup, events, m, key, r)
  {
    AllPendingNext(setup, events, n, m, key);
    assert !Clears(setup, events, n, key);
    hide Pending, SentAt, Clears, RelayedBy, TellsLast, AllPending;
    assert Pending(setup, events, m, key, n);
    forall i | FirstPending(setup, events, m, key, i)
      ensures r.firstSeen == events[i].now && r.bytes == events[i].bytes && RelayedBy(setup, events, m, key, i, r.firstHop)
    {
      if key in onAir {
        assert FirstPending(setup, events, n, key, i);
        RelayNext(setup, events, n, m, key, i, onAir[key].firstHop);
      } else {
        assert i == n;
        NoRelay(setup, events, n, m, key);
      }
    }
  }

  lemma SentLast(setup: Setup, events: seq<Callback>, n: nat, m: nat, key: Key, r: Record)
    requires n < |events| && m == n + 1 && SentAt(events, n, key) && r.lastSeen == events[n].now && r.lastTtl == events[n].ttl
    ensures TellsLast(setup, events, m, key, r)
  {
    AllPendingNext(setup, events, n, m, key);
    assert !Clears(setup, events, n, key);
    hide Pending, SentAt, Clears;
    assert Pending(setup, events, m, key, n);
  }

  lemma SentCount(setup: Setup, events: seq<Callback>, n: nat, m: nat, key: Key)
    requires n < |events| && m == n + 1 && SentAt(events, n, key)
    ensures |AllPending(setup, events, m, key)| == |AllPending(setup, events, n, key)| + 1
    ensures (forall i :: !Pending(setup, events, n, key, i)) ==> |AllPending(setup, events, n, key)| == 0
    ensures Pending(setup, events, m, key, n)
  {
    AllPendingNext(setup, events, n, m, key);
    assert !Clears(setup, events, n, key);
    hide Pending, SentAt, Clears;
    assert AllPending(setup, events, m, key) == AllPending(setup, events, n, key) + {n};
    if forall i :: !Pending(setup, events, n, key, i) { assert AllPending(setup, events, n, key) == {}; }
  }

  /** The packet is transmitted for the first time, or again. */
  lemma KnownSent(setup: Setup, events: seq<Callback>, n: nat, m: nat, key: Key, onAir: map<Key, Record>, onAir': map<Key, Record>)
    requires n < |events| && m == n + 1 && Known(setup, events, n, key, onAir) && SentAt(events, n, key)
    requires var e := events[n]; onAir' == Tracked(onAir, key, e.bytes, e.ttl, e.node, e.now)
    ensures Known(setup, events, m, key, onAir')
  {
    hide Pending, Clears, TellsFirst, TellsLast, AllPending, OpenAt;
    SentCount(setup, events, n, m, key);
    SentFirst(setup, events, n, m, key, onAir, onAir'[key]);
    SentLast(setup, events, n, m, key, onAir'[key]);
  }

  lemma RelayNext(setup: Setup, events: seq<Callback>, n: nat, m: nat, key: Key, i: int, mac: Mac)
    requires n < |events| && m == n + 1 && SentAt(events, n, key) && i < n && RelayedBy(setup, events, n, key, i, mac)
    ensures RelayedBy(setup, events, m, key, i, if mac == NO_MAC then events[n].node else mac)
  {
    AllPendingNext(setup, events, n, m, key);
    assert !Clears(setup, events, n, key);
    hide Pending, SentAt, Clears;
    assert Pending(setup, events, m, key, n);
  }

  lemma NoRelay(setup: Setup, events: seq<Callback>, n: nat, m: nat, key: Key)
    requires n < |events| && m == n + 1
    ensures RelayedBy(setup, events, m, key, n, NO_MAC)
  {
    AllPendingNext(setup, events, n, m, key);
    hide Pending, SentAt, Clears;
  }

  lemma KnownNext(setup: Setup, events: seq<Callback>, n: nat, m: nat, key: Key, l: Ledger)
    requires n < |events| && m == n + 1 && Follows(setup, events, n, l)
    ensures Known(setup, events, m, key, Step(setup, l, events[n]).onAir)
  {
    hide RejectedBefore, OpenAt, Known, NoteAll, Observations, Tracked;
    var onAir' := Step(setup, l, events[n]).onAir;
    assert Known(setup, events, n, key, l.onAir);
    if Clears(setup, events, n, key) {
      assert key !in onAir' by { ClearedAway(setup, events, n, key, l); }
      KnownCleared(setup, events, n, m, key, onAir');
    } else if SentAt(events, n, key) {
      KnownSent(setup, events, n, m, key, l.onAir, onAir');
    } else {
      Untouched(setup, events, n, key, l);
      KnownStays(setup, events, n, m, key, l.onAir, onAir');
    }
  }

  lemma ClearedAway(setup: Setup, events: seq<Callback>, n: nat, key: Key, l: Ledger)
    requires n < |events| && Clears(setup, events, n, key)
    requires (l.rejected <==> RejectedBefore(events, n)) && (!l.active ==> l.onAir == map[])
    ensures key !in Step(setup, l, events[n]).onAir
  {
    hide RejectedBefore, NoteAll, Observations;
  }

  lemma Untouched(setup: Setup, events: seq<Callback>, n: nat, key: Key, l: Ledger)
    requires n < |events| && !Clears(setup, events, n, key) && !SentAt(events, n, key)
    requires (l.rejected <==> RejectedBefore(events, n)) && (l.active <==> OpenAt(events, n))
    ensures var onAir' := Step(setup, l, events[n]).onAir;
      (key in onAir' <==> key in l.onAir) && (key in l.onAir && key in onAir' ==> onAir'[key] == l.onAir[key])
  {
    hide RejectedBefore, OpenAt, NoteAll, Observations;
  }

  lemma FollowsNext(setup: Setup, events: seq<Callback>, n: nat, m: nat, l: Ledger)
    requires n < |events| && m == n + 1 && Follows(setup, events, n, l)
    ensures Follows(setup, events, m, Step(setup, l, events[n]))
  {
    RejectedNext(events, n);
    OpenNext(events, n);
    forall key ensures Known(setup, events, m, key, Step(setup, l, events[n]).onAir) { KnownNext(setup, events, n, m, key, l); }
    hide RejectedBefore, OpenAt, Known, NoteAll, Observations, Tracked;
  }

  lemma {:induction false} RunSplit(setup: Setup, l: Ledger, events: seq<Callback>, e: Callback)
    ensures RunLedger(setup, l, events + [e]) == Step(setup, RunLedger(setup, l, events), e)
    decreases |events|
  {
    hide Step;
    if events == [] {
      assert ([] + [e])[1..] == [];
    } else {
      RunSplit(setup, Step(setup, l, events[0]), events[1..], e);
      assert (events + [e])[1..] == events[1..] + [e];
    }
  }

  /** The ledger after the first n callbacks. */
  function After(setup: Setup, events: seq<Callback>, n: nat): Ledger
    requires n <= |events|
  {
    RunLedger(setup, Started(setup), events[..n])
  }

  lemma AfterNext(setup: Setup, events: seq<Callback>, n: nat)
    requires n < |events|
    ensures After(setup, events, n + 1) == Step(setup, After(setup, events, n), events[n])
  {
    assert events[..n + 1] == events[..n] + [events[n]];
    RunSplit(setup, Started(setup), events[..n], events[n]);
  }

  /** Whatever callbacks fire, what is on the air, and since when, is told by their positions. */
  lemma {:induction false} LedgerFollows(setup: Setup, events: seq<Callback>, n: nat)
    requires n <= |events|
    ensures Follows(setup, events, n, After(setup, events, n))
  {
    if n == 0 {
      assert events[..0] == [];
    } else {
      hide Follows, Step;
      LedgerFollows(setup, events, n - 1);
      AfterNext(setup, events, n - 1);
      FollowsNext(setup, events, n - 1, n, After(setup, events, n - 1));
    }
  }

  // ------------------------------------------------------------- deliveries

  /** The n-th callback is the last hop of a packet first transmitted at i. */
  ghost predicate DeliveredAt(setup: Setup, events: seq<Callback>, n: int, key: Key, i: int) {
    LastHopAt(setup, events, n, key) && OpenAt(events, n) && FirstPending(setup, events, n, key, i)
  }

  lemma FirstExists(setup: Setup, events: seq<Callback>, n: nat, key: Key, j: int) returns (i: int)
    requires Pending(setup, events, n, key, j)
    ensures FirstPending(setup, events, n, key, i)
    decreases j
  {
    if k :| k < j && Pending(setup, events, n, key, k) { i := FirstExists(setup, events, n, key, k); } else { i := j; }
  }

  /** A packet is delivered by a last hop while it is pending, and not otherwise. */
  lemma EndsMeansDelivered(setup: Setup, events: seq<Callback>, n: nat)
    requires n < |events| && events[n].PhyTx?
    ensures Ends(setup, After(setup, events, n), events[n].frame) <==> exists key, i :: DeliveredAt(setup, events, n, key, i)
    ensures forall key, i :: DeliveredAt(setup, events, n, key, i) ==> events[n].frame.payload.FlowData? && events[n].frame.payload.key == key
  {
    LedgerFollows(setup, events, n);
    hide After, Pending, OpenAt, RecordTells, AllPending;
    var l := After(setup, events, n);
    if Ends(setup, l, events[n].frame) {
      var key := events[n].frame.payload.key;
      assert Known(setup, events, n, key, l.onAir);
      var j :| Pending(setup, events, n, key, j);
      var i := FirstExists(setup, events, n, key, j);
      assert DeliveredAt(setup, events, n, key, i);
    }
    forall key, i | DeliveredAt(setup, events, n, key, i)
      ensures Ends(setup, l, events[n].frame)
    {
      assert Known(setup, events, n, key, l.onAir);
    }
  }

  lemma RecordSince(setup: Setup, events: seq<Callback>, n: nat, key: Key, i: int)
    requires n < |events| && DeliveredAt(setup, events, n, key, i)
    ensures 0 <= i < n && events[i].IpTx? && events[i].key == key && events[n].PhyTx? && events[n].frame.payload.FlowData?
    ensures events[n].frame.payload.key == key && setup.phyAvailable
    ensures var l := After(setup, events, n);
      && l.active && Ends(setup, l, events[n].frame) && key in l.onAir && l.onAir[key].flow == key.flow
      && l.onAir[key].firstSeen == events[i].now && l.onAir[key].bytes == events[i].bytes
      && RelayedBy(setup, events, n, key, i, l.onAir[key].firstHop)
  {
    hide After, Pending, RelayedBy, OpenAt, AllPending, TellsLast;
    LedgerFollows(setup, events, n);
    EndsMeansDelivered(setup, events, n);
    PendingIsSent(setup, events, n, key, i);
    var l := After(setup, events, n);
    assert Known(setup, events, n, key, l.onAir) && RecordTells(setup, events, n, key, l.onAir[key]);
  }

  /** What a delivery adds. */
  ghost predicate Adds(d: Data, e: Data, f: Flow, took: real, ttl: nat, bytes: nat) {
    && e.latencies == d.latencies + [took] && List(e.flowDelays, f) == List(d.flowDelays, f) + [took]
    && e.deliveredBytes == d.deliveredBytes + bytes && At(e.delivered, f) == At(d.delivered, f) + 1
    && e.hopCounts == d.hopCounts + (if 1 <= ttl <= 64 then [65 - ttl] else [])
    && e.packets == d.packets && e.bytes == d.bytes && e.sent == d.sent
  }

  /** A delivery counts one packet of its flow, and what is recorded is the time
      since its first transmission, and the bytes of that. */
  lemma DeliveryMeasured(setup: Setup, events: seq<Callback>, n: nat, key: Key, i: int)
    requires n < |events| && DeliveredAt(setup, events, n, key, i)
    ensures 0 <= i < n && events[i].IpTx? && events[i].key == key && events[n].PhyTx? && events[n].frame.payload.FlowData?
    ensures var took := if events[n].now - events[i].now > 0.0 then events[n].now - events[i].now else 0.0;
      Adds(After(setup, events, n).Counters(), After(setup, events, n + 1).Counters(), key.flow, took, events[n].frame.payload.ttl, events[i].bytes)
    ensures key !in After(setup, events, n + 1).onAir
  {
    hide After, Pending, RelayedBy, NoteAll, FrameEvents, Arrived, OpenAt;
    RecordSince(setup, events, n, key, i);
    AfterNext(setup, events, n);
    var l := After(setup, events, n);
    FrameData(setup, l, events[n].frame, events[n].now);
    ArrivedRecords(l.Counters(), key.flow, events[n].frame.payload.ttl, Latency(l.onAir[key], events[n].now));
  }

  /** The callback is a first transmission of the packet. */
  ghost predicate FirstSentAt(setup: Setup, events: seq<Callback>, n: int, key: Key) {
    SentAt(events, n, key) && forall i :: !Pending(setup, events, n, key, i)
  }

  /** No other callback counts a delivery; a packet counts as sent at its first transmission only. */
  lemma OthersCountNothing(setup: Setup, events: seq<Callback>, n: nat)
    requires n < |events| && !Opens(events, n)
    ensures var d, e := After(setup, events, n).Counters(), After(setup, events, n + 1).Counters();
      && ((forall key, i :: !DeliveredAt(setup, events, n, key, i)) ==>
            e.latencies == d.latencies && e.deliveredBytes == d.deliveredBytes && e.delivered == d.delivered && e.hopCounts == d.hopCounts)
      && (forall key :: FirstSentAt(setup, events, n, key) ==>
            events[n].IpTx? && e.packets == d.packets + 1 && e.bytes == d.bytes + events[n].bytes && e.sent == Add(d.sent, key.flow, 1))
      && ((forall key :: !FirstSentAt(setup, events, n, key)) ==> e.packets == d.packets && e.bytes == d.bytes && e.sent == d.sent)
  {
    hide After, Pending, NoteAll, FrameEvents, Arrived, Known, ControlEvents, OpenAt, RejectedBefore, LastHopAt, Add, FirstPending;
    LedgerFollows(setup, events, n);
    AfterNext(setup, events, n);
    var l, e := After(setup, events, n), events[n];
    match e
    case IpOlsr(messages, now) =>
      ControlIsQuiet(messages);
      if l.active { QuietKeepsData(l.features, ControlEvents(messages), now); } else { NothingObserved(setup, l, e); }
    case IpTx(key, bytes, ttl, node, now) =>
      SendingCounts(setup, events, n, l);
    case PhyTx(frame, now) =>
      if l.active && setup.phyAvailable {
        EndsMeansDelivered(setup, events, n);
        FrameData(setup, l, frame, now);
        if Ends(setup, l, frame) {
          var r := l.onAir[frame.payload.key];
          ArrivedRecords(l.Counters(), r.flow, frame.payload.ttl, Latency(r, now));
        }
      } else {
        NothingObserved(setup, l, e);
      }
    case _ =>
  }

  lemma SendingCounts(setup: Setup, events: seq<Callback>, n: nat, l: Ledger)
    requires n < |events| && events[n].IpTx? && Follows(setup, events, n, l)
    ensures var key, d, e := events[n].key, l.Counters(), Step(setup, l, events[n]).Counters();
      && FirstSentAt(setup, events, n, key) == (l.active && key !in l.onAir)
      && e == if l.active && key !in l.onAir then Sent(d, key.flow, events[n].bytes) else d
  {
    hide OpenAt, Pending, RecordTells, Sent, RejectedBefore, Note;
    var key := events[n].key;
    assert Known(setup, events, n, key, l.onAir);
    SentAdds(l.features, key.flow, events[n].bytes, events[n].now);
  }

  lemma PendingIsSent(setup: Setup, events: seq<Callback>, n: nat, key: Key, i: int)
    requires Pending(setup, events, n, key, i)
    ensures 0 <= i < n && i < |events| && events[i].IpTx? && events[i].key == key
  {
  }

  lemma ArrivedRecords(d: Data, f: Flow, ttl: nat, latency: real)
    ensures var e := Arrived(d, f, ttl, latency);
      && e.latencies == d.latencies + [latency] && List(e.flowDelays, f) == List(d.flowDelays, f) + [latency]
      && At(e.delivered, f) == At(d.delivered, f) + 1 && e.hopCounts == d.hopCounts + (if 1 <= ttl <= 64 then [65 - ttl] else [])
      && e.deliveredBytes == d.deliveredBytes && e.packets == d.packets && e.bytes == d.bytes && e.sent == d.sent
  {
  }
}
