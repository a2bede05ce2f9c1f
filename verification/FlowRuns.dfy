/**
 What the flow table guarantees over whole runs: nothing is lost between observation, eviction
 and expiry, eviction is least-recently-touched first, and expiry is exact.
 */
module FlowRuns {
  import opened Bytes
  import opened Collections
  import opened Flows
  import opened FlowTable
  import opened Rolls

  /** What happens to the table: packets, expiry, and the fingerprints written in between. */
  datatype Event =
    | Seen(p: Packet)
    | Expire(now: Time)
    | Print(key: FlowKey, ja4: Octets, ja3: Octets, sni: Octets, alpn: Octets)
    | ServerPrint(key: FlowKey, ja4s: Octets)

  /** The live flows (least recently touched first) and those that left, by how they left. */
  datatype History = History(live: seq<Flow>, evicted: seq<Flow>, expired: seq<Flow>, created: nat)

  const START := History([], [], [], 0)

  function Step(h: History, e: Event, maxFlows: nat, idle: nat): History {
    match e
    case Seen(p) =>
      History(Stay(h.live, p, maxFlows), h.evicted + Shed(h.live, p, maxFlows), h.expired,
              h.created + if Holds(h.live, KeyFor(p)) then 0 else 1)
    case Expire(now) =>
      var n := ExpiredPrefix(h.live, now - idle);
      History(h.live[n..], h.evicted, h.expired + h.live[..n], h.created)
    case Print(key, ja4, ja3, sni, alpn) => h.(live := Fingerprinted(h.live, key, ja4, ja3, sni, alpn))
    case ServerPrint(key, ja4s) => h.(live := ServerFingerprinted(h.live, key, ja4s))
  }

  /** Writing fingerprints changes nothing else. */
  lemma PrintsOnly(h: History, e: Event, maxFlows: nat, idle: nat)
    requires !e.Seen? && !e.Expire?
    ensures var g := Step(h, e, maxFlows, idle); SameButPrints(h.live, g.live) && g == h.(live := g.live)
  {
    hide SameButPrints, Fingerprinted, ServerFingerprinted;
    match e {
      case Print(key, ja4, ja3, sni, alpn) => FingerprintedOnly(h.live, key, ja4, ja3, sni, alpn);
      case ServerPrint(key, ja4s) => ServerFingerprintedOnly(h.live, key, ja4s);
    }
  }

  /** The state after every event, in order. */
  function Run(es: seq<Event>, maxFlows: nat, idle: nat): History {
    if es == [] then START else Step(Run(es[..|es| - 1], maxFlows, idle), es[|es| - 1], maxFlows, idle)
  }

  // --- conservation ---

  function SumPackets(fs: seq<Flow>): nat {
    if fs == [] then 0 else fs[0].Packets() + SumPackets(fs[1..])
  }

  function SumBytes(fs: seq<Flow>): nat {
    if fs == [] then 0 else fs[0].TotalBytes() + SumBytes(fs[1..])
  }

  lemma {:induction false} SumsSplit(fs: seq<Flow>, n: nat)
    requires n <= |fs|
    ensures SumPackets(fs) == SumPackets(fs[..n]) + SumPackets(fs[n..])
    ensures SumBytes(fs) == SumBytes(fs[..n]) + SumBytes(fs[n..])
  {
    if n == 0 {
      assert fs[0..] == fs;
    } else {
      SumsSplit(fs[1..], n - 1);
      assert fs[..n][1..] == fs[1..][..n - 1] && fs[n..] == fs[1..][n - 1..];
    }
  }

  lemma SumsAppend(a: seq<Flow>, b: seq<Flow>)
    ensures SumPackets(a + b) == SumPackets(a) + SumPackets(b)
    ensures SumBytes(a + b) == SumBytes(a) + SumBytes(b)
  {
    assert (a + b)[..|a|] == a && (a + b)[|a|..] == b;
    SumsSplit(a + b, |a|);
  }

  lemma SumsOfOne(f: Flow)
    ensures SumPackets([f]) == f.Packets() && SumBytes([f]) == f.TotalBytes()
  {
    assert [f][1..] == [];
  }

  lemma TouchedSums(flows: seq<Flow>, p: Packet)
    ensures SumPackets(Touched(flows, p)) == SumPackets(flows) + 1
    ensures SumBytes(Touched(flows, p)) == SumBytes(flows) + p.wireLength
    ensures |Touched(flows, p)| == |flows| + if Holds(flows, KeyFor(p)) then 0 else 1
  {
    hide Flow.Observe, Flow.Packets, Flow.TotalBytes;
    var key := KeyFor(p);
    var i := IndexOf(flows, key);
    SumsAppend(Without(flows, key), [Folded(flows, p)]);
    SumsOfOne(Folded(flows, p));
    if i < |flows| {
      ObserveCounts(flows[i], p);
      SumsAppend(flows[..i], flows[i + 1..]);
      SumsSplit(flows, i);
      SumsAppend([flows[i]], flows[i + 1..]);
      SumsOfOne(flows[i]);
      assert flows[i..] == [flows[i]] + flows[i + 1..];
    } else {
      ObserveCounts(NewFlow(key), p);
      NewFlowEmpty(key);
    }
  }

  lemma ObserveCounts(f: Flow, p: Packet)
    ensures f.Observe(p).Packets() == f.Packets() + 1
    ensures f.Observe(p).TotalBytes() == f.TotalBytes() + p.wireLength
  {
    ObserveAccounts(f, p);
  }

  lemma NewFlowEmpty(key: FlowKey)
    ensures NewFlow(key).Packets() == 0 && NewFlow(key).TotalBytes() == 0
  {
  }

  function PacketsSeen(es: seq<Event>): nat {
    if es == [] then 0 else PacketsSeen(es[..|es| - 1]) + if es[|es| - 1].Seen? then 1 else 0
  }

  function BytesSeen(es: seq<Event>): nat {
    if es == [] then 0 else BytesSeen(es[..|es| - 1]) + if es[|es| - 1].Seen? then es[|es| - 1].p.wireLength else 0
  }

  /** How many flows there are, and what they carried, in all three places. */
  ghost predicate Accounts(h: History, packets: nat, bytes: nat) {
    && h.created == |h.live| + |h.evicted| + |h.expired|
    && SumPackets(h.live) + SumPackets(h.evicted) + SumPackets(h.expired) == packets
    && SumBytes(h.live) + SumBytes(h.evicted) + SumBytes(h.expired) == bytes
  }

  lemma SeenAccounts(h: History, p: Packet, maxFlows: nat, idle: nat, packets: nat, bytes: nat)
    requires Accounts(h, packets, bytes)
    ensures Accounts(Step(h, Seen(p), maxFlows, idle), packets + 1, bytes + p.wireLength)
  {
    hide Touched, SumPackets, SumBytes, Holds, Excess;
    var touched := Touched(h.live, p);
    var k := Excess(|touched|, maxFlows);
    TouchedSums(h.live, p);
    SumsSplit(touched, k);
    SumsAppend(h.evicted, touched[..k]);
  }

  lemma ExpireAccounts(h: History, now: Time, maxFlows: nat, idle: nat, packets: nat, bytes: nat)
    requires Accounts(h, packets, bytes)
    ensures Accounts(Step(h, Expire(now), maxFlows, idle), packets, bytes)
  {
    hide SumPackets, SumBytes, ExpiredPrefix;
    var n := ExpiredPrefix(h.live, now - idle);
    SumsSplit(h.live, n);
    SumsAppend(h.expired, h.live[..n]);
  }

  lemma {:induction false} PrintedSums(a: seq<Flow>, b: seq<Flow>)
    requires SameButPrints(a, b)
    ensures SumPackets(a) == SumPackets(b) && SumBytes(a) == SumBytes(b)
  {
    if a != [] {
      PrintedSums(a[1..], b[1..]);
      assert b[0].Packets() == a[0].Packets() && b[0].TotalBytes() == a[0].TotalBytes();
    }
  }

  lemma PrintAccounts(h: History, e: Event, maxFlows: nat, idle: nat, packets: nat, bytes: nat)
    requires Accounts(h, packets, bytes) && !e.Seen? && !e.Expire?
    ensures Accounts(Step(h, e, maxFlows, idle), packets, bytes)
  {
    PrintsOnly(h, e, maxFlows, idle);
    PrintedSums(h.live, Step(h, e, maxFlows, idle).live);
    hide Step, SumPackets, SumBytes;
  }

  /**
   On every run the packet and byte counts of the live, evicted and expired flows together add up to
   the packets observed and their wire lengths.
   */
  lemma {:induction false} Conservation(es: seq<Event>, maxFlows: nat, idle: nat)
    ensures Accounts(Run(es, maxFlows, idle), PacketsSeen(es), BytesSeen(es))
    decreases |es|
  {
    hide Accounts, Step;
    if es == [] {
      NothingYet();
    } else {
      var before := es[..|es| - 1];
      Conservation(before, maxFlows, idle);
      var h, packets, bytes := Run(before, maxFlows, idle), PacketsSeen(before), BytesSeen(before);
      match es[|es| - 1] {
        case Seen(p) => SeenAccounts(h, p, maxFlows, idle, packets, bytes);
        case Expire(now) => ExpireAccounts(h, now, maxFlows, idle, packets, bytes);
        case _ => PrintAccounts(h, es[|es| - 1], maxFlows, idle, packets, bytes);
      }
    }
  }

  lemma NothingYet()
    ensures Accounts(START, 0, 0)
  {
  }

  // --- every flow in one place ---

  /** The creation numbers after one more event; expired flows are the closed ones. */
  function RollStep(h: History, r: Roll, e: Event, maxFlows: nat, idle: nat): (q: Roll)
    requires |r.live| == |h.live|
    ensures |q.live| == |Step(h, e, maxFlows, idle).live|
  {
    match e
    case Seen(p) => RollSeen(r, h.live, p, Excess(|Touched(h.live, p)|, maxFlows))
    case Expire(now) => RollClosed(r, ExpiredPrefix(h.live, now - idle))
    case _ => r
  }

  function RollOf(es: seq<Event>, maxFlows: nat, idle: nat): (r: Roll)
    ensures |r.live| == |Run(es, maxFlows, idle).live|
  {
    if es == [] then NOBODY
    else RollStep(Run(es[..|es| - 1], maxFlows, idle), RollOf(es[..|es| - 1], maxFlows, idle), es[|es| - 1], maxFlows, idle)
  }

  lemma PrintEnrolled(h: History, r: Roll, e: Event, maxFlows: nat, idle: nat)
    requires Enrolled(r, h.live, h.evicted, h.expired) && !e.Seen? && !e.Expire?
    ensures var g := Step(h, e, maxFlows, idle); Enrolled(r, g.live, g.evicted, g.expired)
  {
    PrintsOnly(h, e, maxFlows, idle);
    hide Step, Everyone, UpTo;
    var g := Step(h, e, maxFlows, idle);
    assert Named(r.live, g.live, r.births) by {
      assert forall i | 0 <= i < |g.live| :: g.live[i].key == h.live[i].key;
    }
  }

  lemma StepEnrolled(h: History, r: Roll, e: Event, maxFlows: nat, idle: nat)
    requires Enrolled(r, h.live, h.evicted, h.expired) && |r.live| == |h.live| && |r.births| == h.created
    ensures var g, q := Step(h, e, maxFlows, idle), RollStep(h, r, e, maxFlows, idle);
            Enrolled(q, g.live, g.evicted, g.expired) && |q.births| == g.created
  {
    hide Enrolled, Touched, NumbersTouched, Holds, Excess, ExpiredPrefix;
    match e {
      case Seen(p) => SeenEnrolled(r, h.live, h.evicted, h.expired, p, Excess(|Touched(h.live, p)|, maxFlows));
      case Expire(now) => ClosedEnrolled(r, h.live, h.evicted, h.expired, ExpiredPrefix(h.live, now - idle));
      case _ =>
        PrintsOnly(h, e, maxFlows, idle);
        PrintEnrolled(h, r, e, maxFlows, idle);
    }
  }

  /**
   On every run each flow created is live, evicted or expired, in exactly one of these places and
   there once, under the key it was created for.
   */
  lemma {:induction false} EachFlowOnce(es: seq<Event>, maxFlows: nat, idle: nat)
    ensures var h, r := Run(es, maxFlows, idle), RollOf(es, maxFlows, idle);
            Enrolled(r, h.live, h.evicted, h.expired) && |r.births| == h.created
    decreases |es|
  {
    if es == [] {
    } else {
      hide Enrolled, Step, RollStep;
      var before := es[..|es| - 1];
      EachFlowOnce(before, maxFlows, idle);
      StepEnrolled(Run(before, maxFlows, idle), RollOf(before, maxFlows, idle), es[|es| - 1], maxFlows, idle);
    }
  }

  // --- least recently touched first ---

  /** When a key's latest packet came, counting events from one; zero if it never did. */
  function LastTouch(es: seq<Event>, key: FlowKey): (n: nat)
    ensures n <= |es|
  {
    if es == [] then 0
    else
      var last := es[|es| - 1];
      if last.Seen? && KeyFor(last.p) == key then |es| else LastTouch(es[..|es| - 1], key)
  }

  ghost predicate OrderedByTouch(es: seq<Event>, flows: seq<Flow>) {
    && (forall i | 0 <= i < |flows| :: 0 < LastTouch(es, flows[i].key))
    && (forall i, j | 0 <= i < j < |flows| :: LastTouch(es, flows[i].key) < LastTouch(es, flows[j].key))
  }

  lemma WithoutElements(flows: seq<Flow>, key: FlowKey)
    requires DistinctKeys(flows)
    ensures var w := Without(flows, key);
            && (forall i | 0 <= i < |w| :: w[i].key != key)
            && (forall i | 0 <= i < |w| :: w[i] == flows[if i < IndexOf(flows, key) then i else i + 1])
  {
    var at := IndexOf(flows, key);
    hide IndexOf, Remove;
    if at < |flows| {
      forall i | 0 <= i < |flows| - 1 ensures Remove(flows, at)[i] == flows[if i < at then i else i + 1] {
        RemoveAt(flows, at, i);
      }
    }
  }

  lemma WithoutOrdered(es: seq<Event>, flows: seq<Flow>, key: FlowKey)
    requires OrderedByTouch(es, flows)
    ensures OrderedByTouch(es, Without(flows, key))
    ensures forall i | 0 <= i < |Without(flows, key)| :: Without(flows, key)[i].key != key
  {
    WithoutElements(flows, key);
    hide Without, IndexOf;
  }

  lemma TouchOrdered(es: seq<Event>, flows: seq<Flow>, p: Packet)
    requires OrderedByTouch(es, flows)
    ensures OrderedByTouch(es + [Seen(p)], Touched(flows, p))
  {
    var es', key := es + [Seen(p)], KeyFor(p);
    var w, f := Without(flows, key), Folded(flows, p);
    WithoutOrdered(es, flows, key);
    assert es'[..|es|] == es;
    assert f.key == key && LastTouch(es', key) == |es'|;
    hide Without, Folded, IndexOf, KeyFor;
    forall i | 0 <= i < |w| ensures LastTouch(es', w[i].key) == LastTouch(es, w[i].key) {
    }
    hide LastTouch;
    var t := w + [f];
    assert forall i | 0 <= i < |w| :: t[i] == w[i];
  }

  lemma ExpireOrdered(es: seq<Event>, flows: seq<Flow>, now: Time, n: nat)
    requires OrderedByTouch(es, flows) && n <= |flows|
    ensures OrderedByTouch(es + [Expire(now)], flows[n..])
  {
    var es' := es + [Expire(now)];
    assert es'[..|es|] == es;
    forall i | 0 <= i < |flows| ensures LastTouch(es', flows[i].key) == LastTouch(es, flows[i].key) {
    }
  }

  lemma ShedOrdered(es: seq<Event>, flows: seq<Flow>, n: nat)
    requires OrderedByTouch(es, flows) && n <= |flows|
    ensures OrderedByTouch(es, flows[n..])
  {
  }

  lemma PrintOrdered(es: seq<Event>, e: Event, a: seq<Flow>, b: seq<Flow>)
    requires OrderedByTouch(es, a) && SameButPrints(a, b) && !e.Seen?
    ensures OrderedByTouch(es + [e], b)
  {
    var es' := es + [e];
    assert es'[..|es|] == es;
    forall i | 0 <= i < |b| ensures b[i].key == a[i].key && LastTouch(es', b[i].key) == LastTouch(es, a[i].key) {
    }
    hide LastTouch, SameButPrints;
  }

  lemma StepOrdered(es: seq<Event>, h: History, e: Event, maxFlows: nat, idle: nat)
    requires maxFlows > 0 && OrderedByTouch(es, h.live) && |h.live| <= maxFlows
    ensures OrderedByTouch(es + [e], Step(h, e, maxFlows, idle).live)
    ensures |Step(h, e, maxFlows, idle).live| <= maxFlows
  {
    hide Touched, OrderedByTouch, LastTouch, ExpiredPrefix;
    match e {
      case Seen(p) =>
        var touched := Touched(h.live, p);
        TouchOrdered(es, h.live, p);
        ShedOrdered(es + [e], touched, Excess(|touched|, maxFlows));
      case Expire(now) => ExpireOrdered(es, h.live, now, ExpiredPrefix(h.live, now - idle));
      case _ =>
        PrintsOnly(h, e, maxFlows, idle);
        PrintOrdered(es, e, h.live, Step(h, e, maxFlows, idle).live);
    }
  }

  /** On every run the list is in order of latest touch, and within the table's capacity. */
  lemma {:induction false} RunOrdered(es: seq<Event>, maxFlows: nat, idle: nat)
    requires maxFlows > 0
    ensures OrderedByTouch(es, Run(es, maxFlows, idle).live)
    ensures |Run(es, maxFlows, idle).live| <= maxFlows
    decreases |es|
  {
    if es == [] {
    } else {
      var e, before := es[|es| - 1], es[..|es| - 1];
      assert es == before + [e];
      hide Step, OrderedByTouch, LastTouch;
      RunOrdered(before, maxFlows, idle);
      StepOrdered(before, Run(before, maxFlows, idle), e, maxFlows, idle);
    }
  }

  lemma TouchOrderKeysDistinct(es: seq<Event>, flows: seq<Flow>)
    requires OrderedByTouch(es, flows)
    ensures DistinctKeys(flows)
  {
  }

  /** A table within its capacity evicts one flow, the coldest, when it is full and the packet starts another; else none. */
  lemma EvictsWhenFull(live: seq<Flow>, p: Packet, maxFlows: nat)
    requires maxFlows > 0 && |live| <= maxFlows
    ensures Shed(live, p, maxFlows) == if |live| == maxFlows && !Holds(live, KeyFor(p)) then [live[0]] else []
    ensures Shed(live, p, maxFlows) + Stay(live, p, maxFlows) == Touched(live, p)
  {
    hide Flow.Observe, KeyFor, IndexOf;
    if !Holds(live, KeyFor(p)) {
      TouchedNew(live, p);
    }
  }

  /** Every flow a packet evicts was touched less recently than every flow that stays. */
  lemma EvictsLeastRecentlyTouched(es: seq<Event>, p: Packet, maxFlows: nat, idle: nat, victim: Flow, survivor: Flow)
    requires maxFlows > 0
    requires victim in Shed(Run(es, maxFlows, idle).live, p, maxFlows)
    requires survivor in Run(es + [Seen(p)], maxFlows, idle).live
    ensures LastTouch(es + [Seen(p)], victim.key) < LastTouch(es + [Seen(p)], survivor.key)
  {
    var all := es + [Seen(p)];
    var before := Run(es, maxFlows, idle);
    assert all[..|es|] == es;
    var touched := Touched(before.live, p);
    var k := Excess(|touched|, maxFlows);
    RunOrdered(es, maxFlows, idle);
    TouchOrdered(es, before.live, p);
    hide Touched, LastTouch, Excess;
    assert Run(all, maxFlows, idle).live == touched[k..];
    var i :| 0 <= i < k && touched[i] == victim;
    var j :| k <= j < |touched| && touched[j] == survivor;
  }

  // --- expiry ---

  ghost predicate SortedByLastSeen(flows: seq<Flow>) {
    forall i, j | 0 <= i < j < |flows| :: flows[i].lastSeen <= flows[j].lastSeen
  }

  /**
   Expiry removes exactly the flows last seen at or before the cutoff if and only if no stale flow
   sits behind a fresh one in the list.
   */
  lemma ReapExactIff(flows: seq<Flow>, cutoff: Time)
    ensures (forall f | f in flows[ExpiredPrefix(flows, cutoff)..] :: f.lastSeen > cutoff)
            <==> (forall i, j | 0 <= i < j < |flows| && flows[j].lastSeen <= cutoff :: flows[i].lastSeen <= cutoff)
    ensures forall f | f in flows[..ExpiredPrefix(flows, cutoff)] :: f.lastSeen <= cutoff
  {
    hide ExpiredPrefix;
    var n := ExpiredPrefix(flows, cutoff);
    if forall f | f in flows[n..] :: f.lastSeen > cutoff {
      forall j | n <= j < |flows| ensures flows[j].lastSeen > cutoff {
        assert flows[n..][j - n] == flows[j];
      }
    }
    if forall i, j | 0 <= i < j < |flows| && flows[j].lastSeen <= cutoff :: flows[i].lastSeen <= cutoff {
      forall f | f in flows[n..] ensures f.lastSeen > cutoff {
        var j :| n <= j < |flows| && flows[j] == f;
      }
    }
  }

  /** No packet is older than the one before it. */
  ghost predicate TimeOrdered(es: seq<Event>) {
    forall i, j | 0 <= i < j < |es| && es[i].Seen? && es[j].Seen? :: es[i].p.timestamp <= es[j].p.timestamp
  }

  /** The latest packet's timestamp, or the unset time. */
  function LatestPacket(es: seq<Event>): Time {
    if es == [] then UNSET
    else if es[|es| - 1].Seen? then Max(UNSET, es[|es| - 1].p.timestamp)
    else LatestPacket(es[..|es| - 1])
  }

  ghost predicate SeenWithin(flows: seq<Flow>, limit: Time) {
    forall i | 0 <= i < |flows| :: UNSET <= flows[i].lastSeen <= limit
  }

  lemma TouchSorted(flows: seq<Flow>, p: Packet, limit: Time)
    requires DistinctKeys(flows) && SortedByLastSeen(flows) && SeenWithin(flows, limit)
    requires limit <= Max(UNSET, p.timestamp)
    ensures SortedByLastSeen(Touched(flows, p)) && SeenWithin(Touched(flows, p), Max(UNSET, p.timestamp))
  {
    var key := KeyFor(p);
    var i := IndexOf(flows, key);
    var f := if i < |flows| then flows[i] else NewFlow(key);
    var w, g := Without(flows, key), f.Observe(p);
    assert UNSET <= f.lastSeen <= Max(UNSET, p.timestamp);
    ObserveAccounts(f, p);
    assert Touched(flows, p) == w + [g];
    hide Flow.Observe, Without, IndexOf, Touched;
    assert g.lastSeen == Max(UNSET, p.timestamp);
    WithoutSorted(flows, key, limit);
    LastSorted(w, g, limit);
  }

  lemma WithoutSorted(flows: seq<Flow>, key: FlowKey, limit: Time)
    requires DistinctKeys(flows) && SortedByLastSeen(flows) && SeenWithin(flows, limit)
    ensures SortedByLastSeen(Without(flows, key)) && SeenWithin(Without(flows, key), limit)
  {
    WithoutElements(flows, key);
    hide Without, IndexOf, DistinctKeys;
  }

  lemma LastSorted(flows: seq<Flow>, last: Flow, limit: Time)
    requires SortedByLastSeen(flows) && SeenWithin(flows, limit) && Max(UNSET, limit) <= last.lastSeen
    ensures SortedByLastSeen(flows + [last]) && SeenWithin(flows + [last], last.lastSeen)
  {
  }

  lemma {:induction false} LatestBounds(es: seq<Event>)
    ensures UNSET <= LatestPacket(es)
    ensures LatestPacket(es) == UNSET || exists i :: 0 <= i < |es| && es[i].Seen? && es[i].p.timestamp == LatestPacket(es)
    decreases |es|
  {
    if es != [] && !es[|es| - 1].Seen? {
      LatestBounds(es[..|es| - 1]);
    }
  }

  lemma LatestBefore(es: seq<Event>, p: Packet)
    requires TimeOrdered(es + [Seen(p)])
    ensures TimeOrdered(es) && LatestPacket(es) <= Max(UNSET, p.timestamp)
  {
    var all := es + [Seen(p)];
    LatestBounds(es);
    forall i | 0 <= i < |es| && es[i].Seen? ensures es[i].p.timestamp <= p.timestamp {
      assert all[i] == es[i] && all[|es|] == Seen(p);
    }
    forall i, j | 0 <= i < j < |es| && es[i].Seen? && es[j].Seen? ensures es[i].p.timestamp <= es[j].p.timestamp {
      assert all[i] == es[i] && all[j] == es[j];
    }
  }

  lemma PrintSorted(a: seq<Flow>, b: seq<Flow>, limit: Time)
    requires SameButPrints(a, b) && SortedByLastSeen(a) && SeenWithin(a, limit)
    ensures SortedByLastSeen(b) && SeenWithin(b, limit)
  {
    assert forall i | 0 <= i < |b| :: b[i].lastSeen == a[i].lastSeen;
  }

  lemma StepSorted(h: History, e: Event, latest: Time, maxFlows: nat, idle: nat)
    requires DistinctKeys(h.live) && SortedByLastSeen(h.live) && SeenWithin(h.live, latest)
    requires e.Seen? ==> latest <= Max(UNSET, e.p.timestamp)
    ensures SortedByLastSeen(Step(h, e, maxFlows, idle).live)
    ensures SeenWithin(Step(h, e, maxFlows, idle).live, if e.Seen? then Max(UNSET, e.p.timestamp) else latest)
  {
    hide Touched, ExpiredPrefix;
    if e.Seen? {
      TouchSorted(h.live, e.p, latest);
    } else if !e.Expire? {
      PrintsOnly(h, e, maxFlows, idle);
      PrintSorted(h.live, Step(h, e, maxFlows, idle).live, latest);
    }
  }

  /** With packets in time order, the list is sorted by when each flow was last seen. */
  lemma {:induction false} RunSorted(es: seq<Event>, maxFlows: nat, idle: nat)
    requires maxFlows > 0 && TimeOrdered(es)
    ensures SortedByLastSeen(Run(es, maxFlows, idle).live)
    ensures SeenWithin(Run(es, maxFlows, idle).live, LatestPacket(es))
    decreases |es|
  {
    if es == [] {
    } else {
      var e, before := es[|es| - 1], es[..|es| - 1];
      assert es == before + [e];
      if e.Seen? {
        LatestBefore(before, e.p);
      }
      hide Step, OrderedByTouch;
      var h := Run(before, maxFlows, idle);
      RunSorted(before, maxFlows, idle);
      RunOrdered(before, maxFlows, idle);
      TouchOrderKeysDistinct(before, h.live);
      StepSorted(h, e, LatestPacket(before), maxFlows, idle);
    }
  }

  /**
   So with packets in time order, expiry removes exactly the flows last seen at or before the
   cutoff: none of those stays, and nothing fresher goes.
   */
  lemma ReapExact(es: seq<Event>, maxFlows: nat, idle: nat, cutoff: Time)
    requires maxFlows > 0 && TimeOrdered(es)
    ensures var live := Run(es, maxFlows, idle).live;
            var n := ExpiredPrefix(live, cutoff);
            && (forall f | f in live[..n] :: f.lastSeen <= cutoff)
            && (forall f | f in live[n..] :: f.lastSeen > cutoff)
  {
    RunSorted(es, maxFlows, idle);
    ReapExactIff(Run(es, maxFlows, idle).live, cutoff);
  }

  /** The packets among the events. */
  function PacketsOf(es: seq<Event>): seq<Packet> {
    if es == [] then [] else PacketsOf(es[..|es| - 1]) + if es[|es| - 1].Seen? then [es[|es| - 1].p] else []
  }

  /** The packets came in time order. */
  ghost predicate InOrder(ps: seq<Packet>) {
    forall i, j | 0 <= i < j < |ps| :: ps[i].timestamp <= ps[j].timestamp
  }

  lemma {:induction false} SeenIsPacket(es: seq<Event>, i: nat)
    requires i < |es| && es[i].Seen?
    ensures exists k :: 0 <= k < |PacketsOf(es)| && PacketsOf(es)[k] == es[i].p
    decreases |es|
  {
    var before := es[..|es| - 1];
    if i < |before| {
      SeenIsPacket(before, i);
      var k :| 0 <= k < |PacketsOf(before)| && PacketsOf(before)[k] == es[i].p;
      assert PacketsOf(es)[k] == es[i].p;
    } else {
      assert PacketsOf(es)[|PacketsOf(es)| - 1] == es[i].p;
    }
  }

  lemma InOrderPrefix(ps: seq<Packet>, qs: seq<Packet>)
    requires InOrder(qs) && ps <= qs
    ensures InOrder(ps)
  {
    assert forall i | 0 <= i < |ps| :: ps[i] == qs[i];
  }

  lemma LastInOrder(ps: seq<Packet>, p: Packet, last: Packet)
    requires InOrder(ps + [last]) && exists k :: 0 <= k < |ps| && ps[k] == p
    ensures p.timestamp <= last.timestamp
  {
    var k :| 0 <= k < |ps| && ps[k] == p;
    var all := ps + [last];
    assert all[k] == p && all[|ps|] == last;
  }

  /** Events are in time order when their packets are. */
  lemma {:induction false} PacketsInOrder(es: seq<Event>)
    requires InOrder(PacketsOf(es))
    ensures TimeOrdered(es)
    decreases |es|
  {
    if es != [] {
      var n := |es| - 1;
      var before, ps := es[..n], PacketsOf(es);
      InOrderPrefix(PacketsOf(before), ps);
      PacketsInOrder(before);
      forall i, j | 0 <= i < j < |es| && es[i].Seen? && es[j].Seen? ensures es[i].p.timestamp <= es[j].p.timestamp {
        assert es[i] == before[i];
        if j < n {
          assert es[j] == before[j];
        } else {
          SeenIsPacket(before, i);
          LastInOrder(PacketsOf(before), es[i].p, es[j].p);
        }
      }
    }
  }

  // --- out of order, a stale flow may survive ---

  /** A packet of the `n`th of several conversations. */
  function PacketOf(n: Addr, t: Time): Packet { Packet(t, Endpoint(n, 1), Endpoint(0, 1), PROTO_TCP, false, false, 0, []) }

  lemma FirstPacket(n: Addr, t: Time)
    requires t > UNSET
    ensures var f := NewFlow(KeyFor(PacketOf(n, t))).Observe(PacketOf(n, t)); f.key == KeyFor(PacketOf(n, t)) && f.lastSeen == t
  {
  }

  lemma RunNext(es: seq<Event>, e: Event, maxFlows: nat, idle: nat)
    ensures Run(es + [e], maxFlows, idle) == Step(Run(es, maxFlows, idle), e, maxFlows, idle)
  {
    hide Step;
    assert (es + [e])[..|es|] == es;
  }

  lemma TwoLive(p: Packet, q: Packet)
    requires KeyFor(p) != KeyFor(q)
    ensures var first, second := NewFlow(KeyFor(p)).Observe(p), NewFlow(KeyFor(q)).Observe(q);
            Run([Seen(p), Seen(q)], 2, 10).live == [first, second]
  {
    hide Run, Step, Touched, Flow.Observe, KeyFor;
    var first := NewFlow(KeyFor(p)).Observe(p);
    RunNothing();
    assert [] + [Seen(p)] == [Seen(p)] && [Seen(p)] + [Seen(q)] == [Seen(p), Seen(q)];
    RunNext([], Seen(p), 2, 10);
    NewcomerStays(START, p);
    assert Run([Seen(p)], 2, 10).live == [first];
    RunNext([Seen(p)], Seen(q), 2, 10);
    NewcomerStays(Run([Seen(p)], 2, 10), q);
  }

  lemma NewcomerStays(h: History, p: Packet)
    requires |h.live| < 2 && forall f | f in h.live :: f.key != KeyFor(p)
    ensures Step(h, Seen(p), 2, 10).live == h.live + [NewFlow(KeyFor(p)).Observe(p)]
  {
    hide Touched, Flow.Observe, KeyFor;
    assert !Holds(h.live, KeyFor(p));
    TouchedNew(h.live, p);
  }

  lemma RunNothing()
    ensures Run([], 2, 10) == START
  {
  }

  /** A fresh flow at the cold end keeps everything behind it. */
  lemma NothingExpires(h: History, now: Time, maxFlows: nat, idle: nat)
    requires h.live != [] && h.live[0].lastSeen > now - idle
    ensures Step(h, Expire(now), maxFlows, idle).live == h.live
  {
  }

  lemma SecondOutlives(p: Packet, q: Packet, now: Time)
    requires KeyFor(p) != KeyFor(q) && NewFlow(KeyFor(p)).Observe(p).lastSeen > now - 10
    ensures Run([Seen(p), Seen(q), Expire(now)], 2, 10).live
            == [NewFlow(KeyFor(p)).Observe(p), NewFlow(KeyFor(q)).Observe(q)]
  {
    hide Run, Step, Flow.Observe, KeyFor;
    TwoLive(p, q);
    NothingExpires(Run([Seen(p), Seen(q)], 2, 10), now, 2, 10);
    RunNext([Seen(p), Seen(q)], Expire(now), 2, 10);
    assert [Seen(p), Seen(q)] + [Expire(now)] == [Seen(p), Seen(q), Expire(now)];
  }

  /** Two packets, the second stamped earlier; the second flow outlives a cutoff it was last seen before. */
  lemma StaleFlowSurvives()
    ensures var live := Run([Seen(PacketOf(1, 200)), Seen(PacketOf(2, 100)), Expire(160)], 2, 10).live;
            |live| == 2 && live[1].key == KeyFor(PacketOf(2, 100)) && live[1].lastSeen == 100 < 160 - 10
  {
    hide Run, Flow.Observe;
    FirstPacket(1, 200);
    FirstPacket(2, 100);
    SecondOutlives(PacketOf(1, 200), PacketOf(2, 100), 160);
  }
}
