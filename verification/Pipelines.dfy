/**
 The packet loop: the flow table, three reassemblers whose state must follow it, and the counters
 that account for every packet. Flows handed to the detectors are logged in `closed`.
 */
module Pipelines {
  import opened Bytes
  import opened Flows
  import opened FlowTable
  import opened FlowRuns
  import opened Rolls
  import opened Ledger
  import opened Reassembly
  import opened QuicReassembly
  import opened Feeding
  import opened Keys
  import opened Frames

  /** The Unix epoch, counted like every `Time` from the zero time. */
  const EPOCH: Time := 62_135_596_800_000_000_000

  // --- state held outside the table follows its flows ---

  /** Every key pending anywhere is a live flow's. */
  ghost predicate Follows(client: set<FlowKey>, server: set<FlowKey>, quic: set<FlowKey>, live: seq<Flow>) {
    AllLive(client, live) && AllLive(server, live) && AllLive(quic, live)
  }

  lemma MinusMore<V>(m: map<FlowKey, V>, keys: seq<FlowKey>, i: nat)
    requires i < |keys|
    ensures m - SetOf(keys[..i]) - {keys[i]} == m - SetOf(keys[..i + 1])
  {
    assert keys[..i + 1] == keys[..i] + [keys[i]];
    assert SetOf(keys[..i + 1]) == SetOf(keys[..i]) + {keys[i]};
  }

  lemma MinusAll<V>(m: map<FlowKey, V>, keys: seq<FlowKey>)
    ensures m - SetOf(keys[..0]) == m && keys[..|keys|] == keys
  {
  }

  lemma LiveWithout<V>(m: map<FlowKey, V>, flows: seq<Flow>, k: nat)
    requires k <= |flows| && AllLive(m.Keys, flows)
    ensures AllLive((m - SetOf(KeysOf(flows[..k]))).Keys, flows[k..])
  {
    hide KeysOf, HasKey;
    forall key | key in m.Keys && key !in KeysOf(flows[..k]) ensures HasKey(flows[k..], key) {
      SplitKeys(flows, k, key);
    }
  }

  lemma LiveTouched(keys: set<FlowKey>, flows: seq<Flow>, p: Packet)
    requires AllLive(keys, flows)
    ensures AllLive(keys, Touched(flows, p))
  {
    hide KeysOf, HasKey, Touched;
    var touched := Touched(flows, p);
    forall key | key in keys ensures HasKey(touched, key) {
      TouchedKeys(flows, p, 0, key);
      assert touched[0..] == touched && KeysOf(touched[..0]) == [];
    }
  }

  /** Dropping what the evicted flows held leaves only state of flows that stay. */
  lemma FollowsShed<V, W, X>(a: map<FlowKey, V>, b: map<FlowKey, W>, c: map<FlowKey, X>, flows: seq<Flow>, k: nat)
    requires k <= |flows| && Follows(a.Keys, b.Keys, c.Keys, flows)
    ensures var gone := SetOf(KeysOf(flows[..k]));
            Follows((a - gone).Keys, (b - gone).Keys, (c - gone).Keys, flows[k..])
  {
    hide KeysOf, AllLive, SetOf;
    LiveWithout(a, flows, k);
    LiveWithout(b, flows, k);
    LiveWithout(c, flows, k);
  }

  lemma FollowsTouched(a: set<FlowKey>, b: set<FlowKey>, c: set<FlowKey>, flows: seq<Flow>, p: Packet)
    requires Follows(a, b, c, flows)
    ensures Follows(a, b, c, Touched(flows, p))
  {
    hide AllLive, Touched;
    LiveTouched(a, flows, p);
    LiveTouched(b, flows, p);
    LiveTouched(c, flows, p);
  }

  lemma SameAsBefore(a: seq<Flow>)
    ensures SameButPrints(a, a)
  {
  }

  lemma PrintsKeepLive(keys: set<FlowKey>, a: seq<Flow>, b: seq<Flow>)
    requires AllLive(keys, a) && SameButPrints(a, b)
    ensures AllLive(keys, b)
  {
    forall k | k in keys ensures HasKey(b, k) {
      var i :| 0 <= i < |a| && a[i].key == k;
      assert b[i].key == k;
    }
  }

  lemma FollowsPrints(a: set<FlowKey>, b: set<FlowKey>, c: set<FlowKey>, x: seq<Flow>, y: seq<Flow>)
    requires Follows(a, b, c, x) && SameButPrints(x, y)
    ensures Follows(a, b, c, y)
  {
    hide AllLive, SameButPrints;
    PrintsKeepLive(a, x, y);
    PrintsKeepLive(b, x, y);
    PrintsKeepLive(c, x, y);
  }

  /** A feed for a live flow leaves no key behind that is not live. */
  lemma LiveFed(before: set<FlowKey>, after: set<FlowKey>, key: FlowKey, flows: seq<Flow>)
    requires AllLive(before, flows) && after <= before + {key} && HasKey(flows, key)
    ensures AllLive(after, flows)
  {
    hide HasKey;
  }

  lemma FedKeys<V>(before: map<FlowKey, V>, after: map<FlowKey, V>, key: FlowKey, victim: Option<FlowKey>)
    requires Untouched(key, victim, before, after)
    ensures after.Keys <= before.Keys + {key}
  {
    forall k | k in after && k != key ensures k in before {
      assert Lookup(after, k).Some?;
    }
  }

  lemma FingerprintedAt(flows: seq<Flow>, i: nat, r: ClientResult)
    requires DistinctKeys(flows) && i < |flows|
    ensures var g := Fingerprinted(flows, flows[i].key, r.ja4, r.ja3, r.serverName, r.alpn);
            && SameButPrints(flows, g) && g == flows[i := g[i]]
            && g[i].ja4 == r.ja4 && g[i].Packets() == flows[i].Packets() && g[i].TotalBytes() == flows[i].TotalBytes()
  {
    IndexUnique(flows, i);
  }

  lemma ServerFingerprintedAt(flows: seq<Flow>, i: nat, ja4s: Octets)
    requires DistinctKeys(flows) && i < |flows|
    ensures var g := ServerFingerprinted(flows, flows[i].key, ja4s);
            && SameButPrints(flows, g) && g == flows[i := g[i]]
            && g[i].ja4 == flows[i].ja4 && g[i].Packets() == flows[i].Packets() && g[i].TotalBytes() == flows[i].TotalBytes()
  {
    IndexUnique(flows, i);
  }

  lemma ClientPrints(h: Hashes, before: Option<Octets>, payload: Octets)
    ensures var r := FeedStep(ClientParser(h), before, payload).1; r.Some? ==> r.value.ja4 != []
  {
  }

  lemma HeldWithout<V>(a: map<FlowKey, Octets>, b: map<FlowKey, Octets>, c: map<FlowKey, V>,
                       traces: map<FlowKey, Trace>, keys: set<FlowKey>)
    ensures Held(a - keys, b - keys, Brought(c - keys, traces)) == Held(a, b, Brought(c, traces)).Without(keys)
  {
    hide Brought;
    BroughtWithout(c, traces, keys);
  }

  lemma NoneGone(held: Held, flows: seq<Flow>)
    ensures held.Without(SetOf(KeysOf(flows[..0]))) == held
  {
    assert SetOf(KeysOf(flows[..0])) == {};
  }

  lemma FollowsNone<V, W, X>(a: map<FlowKey, V>, b: map<FlowKey, W>, c: map<FlowKey, X>)
    requires Follows(a.Keys, b.Keys, c.Keys, [])
    ensures a == map[] && b == map[] && c == map[]
  {
    forall k ensures k !in a && k !in b && k !in c {
      assert !HasKey([], k);
    }
  }

  lemma EmptyBooks<V, W, X>(a: map<FlowKey, V>, b: map<FlowKey, W>, c: map<FlowKey, X>)
    requires a == map[] && b == map[] && c == map[]
    ensures Follows(a.Keys, b.Keys, c.Keys, []) && Balanced(Books([], [], [], NOBODY), 0, 0, 0, 0)
  {
  }

  class Pipeline {
    const table: Table
    const reasm: Reassembler<ClientResult>
    const sreasm: Reassembler<Octets>
    const qreasm: QuicReassembler
    const tickInterval: nat

    var nPackets: nat
    var nBytes: nat
    var nFingerprints: nat
    var nServerPrints: nat
    var nEch: nat
    var firstPacket: Time
    var lastNano: int
    var nextTick: Time

    var closed: seq<Flow> // flows handed to the detectors as finished
    var ticks: seq<Time> // scoring passes run
    ghost var evicted: seq<Flow> // flows dropped for capacity
    ghost var roll: Roll // the creation numbers of live, evicted and closed flows
    ghost var events: seq<Event> // what happened to the table

    ghost predicate Owns()
      reads table, table.order, reasm, sreasm, qreasm, qreasm.repr
    {
      && table.Valid() && reasm.Valid() && sreasm.Valid() && qreasm.Valid()
      && reasm as object != sreasm && reasm.parse == ClientParser(qreasm.h)
      && reasm.maxPending == sreasm.maxPending == qreasm.maxPending
    }

    /** What is held for flows whose hello has not come whole. */
    ghost function Holding(): Held
      reads reasm`pending, sreasm`pending, qreasm`pending, qreasm`traces
    {
      Held(reasm.pending, sreasm.pending, Brought(qreasm.pending, qreasm.traces))
    }

    function Counts(): Tally
      reads `nFingerprints, `nEch, `nServerPrints
    {
      Tally(nFingerprints, nEch, nServerPrints)
    }

    ghost function Given(): Kit { Kit(qreasm.h, qreasm.c, sreasm.parse, qreasm.maxPending) }

    ghost predicate Valid()
      reads `nPackets, `nBytes, `nFingerprints, `closed, `evicted, `roll
      reads table, table.order, reasm, sreasm, qreasm, qreasm.repr
    {
      && Owns()
      && Follows(reasm.pending.Keys, sreasm.pending.Keys, qreasm.pending.Keys, table.contents)
      && Balanced(Books(table.contents, evicted, closed, roll), table.created, nPackets, nBytes, nFingerprints)
    }

    /** The live, evicted and closed flows are those the table's events lead to. */
    ghost predicate Traced()
      reads `events, `evicted, `closed, table`contents
    {
      LedTo(events, table.maxFlows, table.idleTimeout, table.contents, evicted, closed)
    }

    lemma TraceIs()
      requires Traced()
      ensures var h := FlowRuns.Run(events, table.maxFlows, table.idleTimeout);
              h.live == table.contents && h.evicted == evicted && h.expired == closed
    {
    }

    constructor (maxFlows: nat, idleTimeout: nat, maxPending: nat, tickInterval: nat, c: Primitives, h: Hashes,
                 serverParse: Octets -> Verdict<Octets>)
      requires maxFlows > 0 && maxPending > 0 && c.Sound()
      ensures Valid() && Paced() && Traced() && nPackets == 0 && nBytes == 0 && nFingerprints == 0 && events == []
      ensures table.contents == [] && evicted == [] && closed == [] && roll == NOBODY
      ensures fresh(table) && table.order == [] && fresh(reasm) && fresh(sreasm) && fresh(qreasm) && qreasm.repr == {}
    {
      hide Table.Valid, QuicReassembler.Valid, Reassembler.Valid, ClientParser, Follows, Balanced, Owns, Paced, Valid;
      hide LedTo;
      NothingLedTo(maxFlows, idleTimeout);
      table := new Table(maxFlows, idleTimeout);
      reasm := new Reassembler(maxPending, ClientParser(h));
      sreasm := new Reassembler(maxPending, serverParse);
      qreasm := new QuicReassembler(maxPending, c, h);
      this.tickInterval := tickInterval;
      nPackets, nBytes, nFingerprints, nServerPrints, nEch := 0, 0, 0, 0, 0;
      firstPacket, lastNano, nextTick := UNSET, 0, UNSET;
      closed, ticks, evicted, roll, events := [], [], [], NOBODY, [];
      new;
      OwnsParts();
      StartsPaced();
      EmptyBooks(reasm.pending, sreasm.pending, qreasm.pending);
      AllSound();
    }

    lemma OwnsParts()
      requires table.Valid() && reasm.Valid() && sreasm.Valid() && qreasm.Valid()
      requires reasm as object != sreasm && reasm.parse == ClientParser(qreasm.h)
      requires reasm.maxPending == sreasm.maxPending == qreasm.maxPending
      ensures Owns()
    {
    }

    lemma StartsPaced()
      requires ticks == []
      ensures Paced()
    {
    }

    /** Clear a flow out of all three reassemblers. */
    method Forget(key: FlowKey)
      requires Owns()
      modifies reasm`pending, sreasm`pending, qreasm`pending
      ensures Owns()
      ensures reasm.pending == old(reasm.pending) - {key} && sreasm.pending == old(sreasm.pending) - {key}
      ensures qreasm.pending == old(qreasm.pending) - {key}
    {
      hide Table.Valid, QuicReassembler.Valid, Reassembler.Valid, ClientParser;
      reasm.Forget(key);
      ForgetServer(key);
      qreasm.Forget(key);
    }

    method ForgetServer(key: FlowKey)
      requires Owns()
      modifies sreasm`pending
      ensures Owns() && sreasm.pending == old(sreasm.pending) - {key}
    {
      hide Table.Valid, QuicReassembler.Valid, Reassembler.Valid, ClientParser;
      sreasm.Forget(key);
    }

    lemma RollFits()
      requires Valid()
      ensures |roll.live| == |table.contents|
    {
      hide Owns, Follows, SumPackets, SumBytes, Printed, Everyone, UpTo;
    }

    method ForgetAll(keys: seq<FlowKey>)
      requires Owns()
      modifies reasm`pending, sreasm`pending, qreasm`pending
      ensures Owns()
      ensures reasm.pending == old(reasm.pending) - SetOf(keys) && sreasm.pending == old(sreasm.pending) - SetOf(keys)
      ensures qreasm.pending == old(qreasm.pending) - SetOf(keys)
      ensures Holding() == old(Holding()).Without(SetOf(keys))
    {
      hide Owns, SetOf, Brought, Held.Without;
      HeldWithout(reasm.pending, sreasm.pending, qreasm.pending, qreasm.traces, SetOf(keys));
      MinusAll(reasm.pending, keys);
      MinusAll(sreasm.pending, keys);
      MinusAll(qreasm.pending, keys);
      for i := 0 to |keys|
        invariant Owns()
        invariant reasm.pending == old(reasm.pending) - SetOf(keys[..i])
        invariant sreasm.pending == old(sreasm.pending) - SetOf(keys[..i])
        invariant qreasm.pending == old(qreasm.pending) - SetOf(keys[..i])
      {
        MinusMore(old(reasm.pending), keys, i);
        MinusMore(old(sreasm.pending), keys, i);
        MinusMore(old(qreasm.pending), keys, i);
        Forget(keys[i]);
      }
    }

    /** Expire idle flows: the detectors get each of them, and nothing held for it stays. */
    method Reap(now: Time)
      requires Valid()
      modifies this`closed, this`roll, reasm`pending, sreasm`pending, qreasm`pending
      modifies table`flows, table`expired, table`head, table`tail, table`order, table`contents, table.order
      ensures Valid() && (forall j | 0 <= j < |table.order| :: table.order[j] in old(table.order))
      ensures
        var n := ExpiredPrefix(old(table.contents), now - table.idleTimeout);
        && table.contents == old(table.contents)[n..] && closed == old(closed) + old(table.contents)[..n]
        && n <= |old(roll).live| && roll == RollClosed(old(roll), n)
        && Holding() == old(Holding()).Without(SetOf(KeysOf(old(table.contents)[..n])))
    {
      hide Follows, Balanced, Table.Valid, QuicReassembler.Valid, Reassembler.Valid, ClientParser, SetOf, KeysOf;
      hide ExpiredPrefix;
      hide RollClosed, Holding, Held.Without;
      RollFits();
      ghost var live := table.contents;
      ghost var n := ExpiredPrefix(live, now - table.idleTimeout);
      FollowsShed(reasm.pending, sreasm.pending, qreasm.pending, live, n);
      CloseBalances(Books(live, evicted, closed, roll), n, table.created, nPackets, nBytes, nFingerprints);
      var out := table.Reap(now);
      closed := closed + out;
      roll := RollClosed(roll, n);
      ForgetAll(KeysOf(out));
    }

    /** The flow just observed is the warmest, so it is at the end of the table. */
    ghost predicate Warmest(key: FlowKey, f: Flow)
      reads table
    {
      table.contents != [] && table.contents[|table.contents| - 1] == f && f.key == key
    }

    lemma SoundQuic()
      requires Owns()
      ensures qreasm.c.Sound()
    {
      hide Table.Valid, Reassembler.Valid, ClientParser, Tracks;
    }

    lemma QuicTraced()
      requires qreasm.Valid()
      ensures AllTraced(qreasm.pending, qreasm.traces)
    {
      hide Tracks;
    }

    /** Feed a QUIC datagram; a result ends what is kept for its flow. */
    method FeedQuic(key: FlowKey, datagram: Octets) returns (r: Option<ClientResult>)
      requires Owns()
      modifies qreasm`pending, qreasm`dropped, qreasm`traces, qreasm`repr, qreasm.repr
      ensures Owns() && fresh(qreasm.repr - old(qreasm.repr))
      ensures qreasm.pending.Keys <= old(qreasm.pending).Keys + {key}
      ensures FedQuic(Given(), key, datagram, old(Brought(qreasm.pending, qreasm.traces)), Brought(qreasm.pending, qreasm.traces), r)
    {
      hide Table.Valid, Reassembler.Valid, QuicReassembler.Valid, Settled, ClientParser, AllInBounds, Untouched;
      hide FramesOf;
      hide Primitives.Sound, FedQuic, Brought, AllTraced;
      SoundQuic();
      QuicTraced();
      ghost var before, traces := qreasm.pending, qreasm.traces;
      ghost var victim;
      r, victim := qreasm.Feed(key, datagram);
      FedKeys(before, qreasm.pending, key, victim);
      QuicTraced();
      QuicFedIs(Given(), key, datagram, before, traces, qreasm.pending, qreasm.traces, victim, r);
    }

    /** Feed a client payload to the reassembler of its transport. */
    method FeedClient(key: FlowKey, p: Packet, f: Flow) returns (r: Option<ClientResult>)
      requires Owns() && key == KeyFor(p) && ClientTurn(f, p)
      modifies reasm, qreasm`pending, qreasm`dropped, qreasm`traces, qreasm`repr, qreasm.repr
      ensures Owns() && fresh(qreasm.repr - old(qreasm.repr))
      ensures reasm.pending.Keys <= old(reasm.pending).Keys + {key}
      ensures qreasm.pending.Keys <= old(qreasm.pending).Keys + {key}
      ensures r.Some? ==> r.value.ja4 != []
      ensures ClientFed(Given(), f, p, old(Holding()), Holding(), r)
    {
      hide Table.Valid, QuicReassembler.Valid, ClientParser, FeedStep, FedQuic, Lookup, Opens, Untouched, Brought;
      hide Primitives.Sound;
      r := None;
      if p.proto == PROTO_TCP {
        ghost var before := reasm.pending;
        ClientPrints(qreasm.h, Lookup(before, key), p.payload);
        ghost var victim;
        r, victim := reasm.Feed(key, p.payload);
        FedKeys(before, reasm.pending, key, victim);
      } else if p.proto == PROTO_UDP {
        ghost var before := Holding().quic;
        r := FeedQuic(key, p.payload);
        QuicPrints(Given(), key, p.payload, before, Holding().quic, r);
      }
    }

    lemma TableDistinct()
      requires table.Valid()
      ensures DistinctKeys(table.contents)
    {
      IndexesDistinct(table.flows, table.order, table.contents);
    }

    /** Rewriting the prints of the warmest flow keeps every pending key live and the books balanced. */
    lemma PrintKeeps(after: seq<Flow>, i: nat)
      requires Valid() && i < |table.contents| == |after| && SameButPrints(table.contents, after)
      requires after == table.contents[i := after[i]]
      requires after[i].Packets() == table.contents[i].Packets()
      requires after[i].TotalBytes() == table.contents[i].TotalBytes()
      requires table.contents[i].ja4 == [] || after[i].ja4 == table.contents[i].ja4
      ensures Follows(reasm.pending.Keys, sreasm.pending.Keys, qreasm.pending.Keys, after)
      ensures Balanced(Books(after, evicted, closed, roll), table.created, nPackets, nBytes,
                       nFingerprints + if table.contents[i].ja4 == [] && after[i].ja4 != [] then 1 else 0)
    {
      assert after[i].key == table.contents[i].key;
      hide Owns, Follows, Balanced, SameButPrints, Flow.Packets, Flow.TotalBytes;
      PrintBalances(Books(table.contents, evicted, closed, roll), i, after[i], table.created, nPackets, nBytes, nFingerprints);
      FollowsPrints(reasm.pending.Keys, sreasm.pending.Keys, qreasm.pending.Keys, table.contents, after);
    }

    lemma Recorded(key: FlowKey, f: Flow, r: ClientResult)
      requires Valid() && Warmest(key, f) && f.ja4 == [] && r.ja4 != []
      ensures var after := Fingerprinted(table.contents, key, r.ja4, r.ja3, r.serverName, r.alpn);
              && SameButPrints(table.contents, after)
              && Follows(reasm.pending.Keys, sreasm.pending.Keys, qreasm.pending.Keys, after)
              && Balanced(Books(after, evicted, closed, roll), table.created, nPackets, nBytes, nFingerprints + 1)
    {
      TableDistinct();
      hide Follows, Balanced, Fingerprinted, SameButPrints, DistinctKeys, Table.Valid, Flow.Packets, Flow.TotalBytes;
      var i := |table.contents| - 1;
      FingerprintedAt(table.contents, i, r);
      PrintKeeps(Fingerprinted(table.contents, key, r.ja4, r.ja3, r.serverName, r.alpn), i);
    }

    lemma ServerRecorded(key: FlowKey, f: Flow, ja4s: Octets)
      requires Valid() && Warmest(key, f)
      ensures var after := ServerFingerprinted(table.contents, key, ja4s);
              && SameButPrints(table.contents, after)
              && Follows(reasm.pending.Keys, sreasm.pending.Keys, qreasm.pending.Keys, after)
              && Balanced(Books(after, evicted, closed, roll), table.created, nPackets, nBytes, nFingerprints)
    {
      TableDistinct();
      hide Follows, Balanced, ServerFingerprinted, SameButPrints, DistinctKeys, Table.Valid, Flow.Packets;
      hide Flow.TotalBytes;
      var i := |table.contents| - 1;
      ServerFingerprintedAt(table.contents, i, ja4s);
      PrintKeeps(ServerFingerprinted(table.contents, key, ja4s), i);
    }

    /** Write a result on the warmest flow: the books gain its first fingerprint. */
    method Record(key: FlowKey, f: Flow, r: ClientResult)
      requires Valid() && Warmest(key, f) && f.ja4 == [] && r.ja4 != []
      modifies this`nFingerprints, this`nEch, table`contents, table.order`flow
      ensures Valid()
      ensures table.contents == Fingerprinted(old(table.contents), key, r.ja4, r.ja3, r.serverName, r.alpn)
      ensures nFingerprints == old(nFingerprints) + 1 && nEch == old(nEch) + if r.hasEch then 1 else 0
      ensures SameButPrints(old(table.contents), table.contents)
    {
      hide Table.Valid, QuicReassembler.Valid, Reassembler.Valid, ClientParser, Follows, Balanced, Fingerprinted;
      hide SameButPrints;
      Recorded(key, f, r);
      table.SetFingerprint(key, r.ja4, r.ja3, r.serverName, r.alpn);
      nFingerprints := nFingerprints + 1;
      if r.hasEch {
        nEch := nEch + 1;
      }
    }

    /** Recover JA4 and JA3 from a client payload, once for each flow. */
    method FingerprintClient(key: FlowKey, p: Packet, f: Flow) returns (r: Option<ClientResult>)
      requires Valid() && Warmest(key, f) && key == KeyFor(p) && p.payload != [] && p.src == f.client
      modifies this`nFingerprints, this`nEch, table`contents, table.order`flow
      modifies reasm, qreasm`pending, qreasm`dropped, qreasm`traces, qreasm`repr, qreasm.repr
      ensures Valid() && fresh(qreasm.repr - old(qreasm.repr)) && SameButPrints(old(table.contents), table.contents)
      ensures ClientFed(Given(), f, p, old(Holding()), Holding(), r)
      ensures table.contents == if r.None? then old(table.contents)
                else Fingerprinted(old(table.contents), key, r.value.ja4, r.value.ja3, r.value.serverName, r.value.alpn)
      ensures nFingerprints == old(nFingerprints) + if r.Some? then 1 else 0
      ensures nEch == old(nEch) + if r.Some? && r.value.hasEch then 1 else 0
    {
      hide Owns, Table.Valid, Balanced, Fingerprinted, SameButPrints, AllLive, FedTcp, FedQuic, Brought;
      hide Primitives.Sound;
      SameAsBefore(table.contents);
      r := None;
      if f.ja4 != [] {
        return;
      }
      WarmestLive(key, f);
      ghost var a, b := reasm.pending.Keys, qreasm.pending.Keys;
      r := FeedClient(key, p, f);
      LiveFed(a, reasm.pending.Keys, key, table.contents);
      LiveFed(b, qreasm.pending.Keys, key, table.contents);
      if r.Some? {
        Record(key, f, r.value);
      }
    }

    lemma WarmestLive(key: FlowKey, f: Flow)
      requires Warmest(key, f)
      ensures HasKey(table.contents, key)
    {
    }

    /** Recover JA4S from a server payload; only TCP flows have one an observer can read. */
    method FingerprintServer(key: FlowKey, p: Packet, f: Flow) returns (r: Option<Octets>)
      requires Valid() && Warmest(key, f) && key == KeyFor(p) && p.payload != [] && p.src != f.client
      modifies this`nServerPrints, table`contents, table.order`flow, sreasm
      ensures Valid() && SameButPrints(old(table.contents), table.contents)
      ensures ServerFed(Given(), f, p, old(Holding()), Holding(), r)
      ensures table.contents == if r.None? then old(table.contents) else ServerFingerprinted(old(table.contents), key, r.value)
      ensures nServerPrints == old(nServerPrints) + if r.Some? then 1 else 0
    {
      hide Owns, Table.Valid, Balanced, ServerFingerprinted, SameButPrints, AllLive, FedTcp, Brought;
      SameAsBefore(table.contents);
      r := None;
      if f.ja4s != [] || p.proto != PROTO_TCP {
        return;
      }
      r := FeedServer(key, p.payload, f);
      if r.Some? {
        RecordServer(key, f, r.value);
      }
    }

    method FeedServer(key: FlowKey, payload: Octets, f: Flow) returns (r: Option<Octets>)
      requires Valid() && Warmest(key, f)
      modifies sreasm
      ensures Valid()
      ensures FedTcp(sreasm.parse, qreasm.maxPending, key, payload, old(sreasm.pending), sreasm.pending, r)
    {
      hide Table.Valid, QuicReassembler.Valid, ClientParser, Balanced, FeedStep, AllLive, Lookup, Opens, Untouched;
      WarmestLive(key, f);
      ghost var before := sreasm.pending;
      ghost var victim;
      r, victim := sreasm.Feed(key, payload);
      FedKeys(before, sreasm.pending, key, victim);
      LiveFed(before.Keys, sreasm.pending.Keys, key, table.contents);
    }

    method RecordServer(key: FlowKey, f: Flow, ja4s: Octets)
      requires Valid() && Warmest(key, f)
      modifies this`nServerPrints, table`contents, table.order`flow
      ensures Valid() && table.contents == ServerFingerprinted(old(table.contents), key, ja4s)
      ensures nServerPrints == old(nServerPrints) + 1 && SameButPrints(old(table.contents), table.contents)
    {
      hide Table.Valid, QuicReassembler.Valid, Reassembler.Valid, ClientParser, Follows, Balanced;
      hide ServerFingerprinted, SameButPrints;
      ServerRecorded(key, f, ja4s);
      table.SetServerFingerprint(key, ja4s);
      nServerPrints := nServerPrints + 1;
    }

    /** Recover fingerprints from a payload, from the direction the flow's orientation gives it. */
    method FingerprintTls(p: Packet, f: Flow) returns (r: Option<ClientResult>, rs: Option<Octets>)
      requires Valid() && Warmest(KeyFor(p), f)
      modifies this`nFingerprints, this`nEch, this`nServerPrints, table`contents, table.order`flow
      modifies reasm, sreasm, qreasm`pending, qreasm`dropped, qreasm`traces, qreasm`repr, qreasm.repr
      ensures fresh(qreasm.repr - old(qreasm.repr)) && SameButPrints(old(table.contents), table.contents)
      ensures table.contents == PrintedOn(old(table.contents), KeyFor(p), r, rs)
      ensures Counts() == old(Counts()).With(r, rs)
      ensures Valid()
      ensures Fed(Given(), f, p, old(Holding()), Holding(), r, rs)
    {
      hide Valid, SameButPrints, Fingerprinted, ServerFingerprinted, FedTcp, FedQuic, Brought, Primitives.Sound;
      SameAsBefore(table.contents);
      r, rs := None, None;
      if |p.payload| == 0 {
        return;
      }
      var key := KeyFor(p);
      if p.src == f.client {
        r := FingerprintClient(key, p, f);
      } else {
        rs := FingerprintServer(key, p, f);
      }
    }

    /** What a packet and `k` evictions lead to is again sound. */
    lemma ObserveKeeps(p: Packet, k: nat)
      requires Valid() && k <= |Touched(table.contents, p)| && |roll.live| == |table.contents|
      ensures
        var touched := Touched(table.contents, p);
        var gone := SetOf(KeysOf(touched[..k]));
        && Follows((reasm.pending - gone).Keys, (sreasm.pending - gone).Keys, (qreasm.pending - gone).Keys, touched[k..])
        && Balanced(Books(touched[k..], evicted + touched[..k], closed, RollSeen(roll, table.contents, p, k)),
                    table.created + (if Holds(table.contents, KeyFor(p)) then 0 else 1),
                    nPackets + 1, nBytes + p.wireLength, nFingerprints)
    {
      hide Owns, Follows, Balanced, SetOf, KeysOf, Touched, RollSeen, Holds;
      FollowsTouched(reasm.pending.Keys, sreasm.pending.Keys, qreasm.pending.Keys, table.contents, p);
      FollowsShed(reasm.pending, sreasm.pending, qreasm.pending, Touched(table.contents, p), k);
      ObserveBalances(Books(table.contents, evicted, closed, roll), p, k, table.created, nPackets, nBytes, nFingerprints);
    }

    /** Count a packet and fold it into its flow; the state of every flow evicted for it goes. */
    method ObserveFlow(p: Packet) returns (f: Flow)
      requires Valid()
      modifies this`nPackets, this`nBytes, this`evicted, this`roll, table, table.order, reasm`pending, sreasm`pending
      modifies qreasm`pending
      ensures Valid() && Warmest(KeyFor(p), f) && f == Folded(old(table.contents), p)
      ensures nPackets == old(nPackets) + 1 && nBytes == old(nBytes) + p.wireLength
      ensures
        var touched := Touched(old(table.contents), p);
        var k := Excess(|touched|, table.maxFlows);
        && table.contents == touched[k..] && evicted == old(evicted) + touched[..k]
        && |old(roll).live| == |old(table.contents)| && roll == RollSeen(old(roll), old(table.contents), p, k)
        && Holding() == old(Holding()).Without(SetOf(KeysOf(touched[..k])))
      ensures forall j | 0 <= j < |table.order| :: table.order[j] in old(table.order) || fresh(table.order[j])
    {
      hide Valid, Owns, Follows, Balanced, SetOf, KeysOf, Excess, Touched, Folded, RollSeen, Holds, Brought;
      hide Held.Without;
      RollFits();
      OwnsAll();
      ghost var live := table.contents;
      ghost var k := Excess(|Touched(live, p)|, table.maxFlows);
      ObserveKeeps(p, k);
      nPackets := nPackets + 1;
      nBytes := nBytes + p.wireLength;
      var dropped;
      f, dropped := TableObserve(p);
      evicted := evicted + Touched(live, p)[..k];
      roll := RollSeen(roll, live, p, k);
      ForgetAll(dropped);
      AllSound();
    }

    lemma OwnsAll()
      requires Valid()
      ensures Owns()
    {
      hide Owns, Follows, Balanced;
    }

    lemma AllSound()
      requires Owns() && Follows(reasm.pending.Keys, sreasm.pending.Keys, qreasm.pending.Keys, table.contents)
      requires Balanced(Books(table.contents, evicted, closed, roll), table.created, nPackets, nBytes, nFingerprints)
      ensures Valid()
    {
      hide Owns, Follows, Balanced;
    }

    /** Observe a packet in the table; its flow comes out warmest. */
    method TableObserve(p: Packet) returns (f: Flow, dropped: seq<FlowKey>)
      requires Owns()
      modifies table, table.order
      ensures Owns() && Warmest(KeyFor(p), f) && f == Folded(old(table.contents), p)
      ensures table.created == old(table.created) + if Holds(old(table.contents), KeyFor(p)) then 0 else 1
      ensures
        var touched := Touched(old(table.contents), p);
        var k := Excess(|touched|, table.maxFlows);
        table.contents == touched[k..] && dropped == KeysOf(touched[..k])
      ensures forall j | 0 <= j < |table.order| :: table.order[j] in old(table.order) || fresh(table.order[j])
    {
      hide Table.Valid, Reassembler.Valid, QuicReassembler.Valid, ClientParser, KeysOf, Excess, Touched, Folded, Holds;
      ghost var live := table.contents;
      var e, isNew, keys;
      ghost var victims;
      e, isNew, keys, victims := table.Observe(p);
      f, dropped := e.flow, keys;
      LastTouched(live, p, Excess(|Touched(live, p)|, table.maxFlows));
      LastEntry(e);
    }

    /** Scoring passes follow capture time: each comes more than an interval after the one before. */
    ghost predicate Paced()
      reads `firstPacket, `nextTick, `lastNano, `ticks
    {
      && (firstPacket == UNSET ==> ticks == [])
      && (ticks != [] ==> nextTick == ticks[|ticks| - 1] + tickInterval)
      && (forall i | 0 < i < |ticks| :: ticks[i - 1] + tickInterval < ticks[i])
      && (forall i | 0 <= i < |ticks| :: ticks[i] <= lastNano + EPOCH)
    }

    /** Note a packet's time; true when a scoring pass is due after it. */
    method Clock(now: Time) returns (due: bool)
      requires Paced()
      modifies this`firstPacket, this`nextTick, this`lastNano
      ensures Paced() && lastNano == Max(old(lastNano), now - EPOCH) && EPOCH == 719_162 * 86_400_000_000_000
      ensures firstPacket == if old(firstPacket) == UNSET then now else old(firstPacket)
      ensures nextTick == if old(firstPacket) == UNSET then now + tickInterval else old(nextTick)
      ensures due == (now > nextTick)
    {
      if firstPacket == UNSET {
        firstPacket := now;
        nextTick := now + tickInterval;
      }
      if now - EPOCH > lastNano {
        lastNano := now - EPOCH;
      }
      due := now > nextTick;
    }

    method TickOver(now: Time)
      requires Paced() && now > nextTick && firstPacket != UNSET && now <= lastNano + EPOCH
      modifies this`ticks, this`nextTick
      ensures Paced() && ticks == old(ticks) + [now] && nextTick == now + tickInterval
    {
      ticks := ticks + [now];
      nextTick := now + tickInterval;
    }

    /** Close the idle flows and run a scoring pass. */
    method Sweep(now: Time)
      requires Valid() && Paced() && now > nextTick && firstPacket != UNSET && now <= lastNano + EPOCH
      modifies this`closed, this`roll, this`ticks, this`nextTick, reasm`pending, sreasm`pending, qreasm`pending
      modifies table`flows, table`expired, table`head, table`tail, table`order, table`contents, table.order
      ensures Valid() && Paced() && (forall j | 0 <= j < |table.order| :: table.order[j] in old(table.order))
      ensures
        var n := ExpiredPrefix(old(table.contents), now - table.idleTimeout);
        && table.contents == old(table.contents)[n..] && closed == old(closed) + old(table.contents)[..n]
        && n <= |old(roll).live| && roll == RollClosed(old(roll), n)
        && Holding() == old(Holding()).Without(SetOf(KeysOf(old(table.contents)[..n])))
      ensures ticks == old(ticks) + [now]
    {
      hide Valid, Paced, ExpiredPrefix, Holding, SetOf, KeysOf, Held.Without;
      Reap(now);
      TickOver(now);
    }

    /**
     Process one packet. `observed` are the flows live, and `held` what is held for them, once it is
     folded in, its payload fed, and what that yields, `r` or `rs`, written. If a scoring pass is due
     the idle ones among them are closed, and with all packets in time order no idle one stays.
     */
    method Handle(p: Packet)
      returns (ghost observed: seq<Flow>, ghost held: Held, ghost r: Option<ClientResult>, ghost rs: Option<Octets>)
      requires Valid() && Paced() && Traced()
      modifies this, table, table.order, reasm, sreasm, qreasm, qreasm.repr
      ensures nPackets == old(nPackets) + 1 && nBytes == old(nBytes) + p.wireLength && RollGrows(old(roll), roll)
      ensures SameButPrints(Stay(old(table.contents), p, table.maxFlows), observed)
      ensures observed == PrintedOn(Stay(old(table.contents), p, table.maxFlows), KeyFor(p), r, rs)
      ensures evicted == old(evicted) + Shed(old(table.contents), p, table.maxFlows)
      ensures
        var due := old(firstPacket) != UNSET && p.timestamp > old(nextTick);
        var n := if due then ExpiredPrefix(observed, p.timestamp - table.idleTimeout) else 0;
        && table.contents == observed[n..] && closed == old(closed) + observed[..n]
        && Holding() == held.Without(SetOf(KeysOf(observed[..n])))
        && ticks == old(ticks) + (if due then [p.timestamp] else [])
        && events == old(events) + AdmitEvents(p, r, rs) + (if due then [Expire(p.timestamp)] else [])
        && PacketsOf(events) == PacketsOf(old(events)) + [p]
        && (due ==> AllIdle(observed[..n], p.timestamp - table.idleTimeout))
        && (due && InOrder(PacketsOf(events)) ==> AllFresh(table.contents, p.timestamp - table.idleTimeout))
      ensures fresh(qreasm.repr - old(qreasm.repr))
      ensures forall j | 0 <= j < |table.order| :: table.order[j] in old(table.order) || fresh(table.order[j])
      ensures Valid() && Paced() && Traced()
      ensures PacketFed(Given(), old(table.contents), table.maxFlows, p, old(Holding()), held, r, rs)
      ensures Counts() == old(Counts()).With(r, rs)
    {
      hide Valid, Paced, SameButPrints, Stay, Shed, ExpiredPrefix, RollGrows, RollClosed;
      hide KeyFor, Traced, AdmitEvents, PrintedOn, InOrder, PacketsOf, AllIdle, AllFresh;
      hide PacketFed, Holding, SetOf, KeysOf, Held.Without, Given, Tally.With;
      var due;
      due, r, rs := Admit(p);
      observed, held := table.contents, Holding();
      ghost var before := roll;
      SweepIf(due, p.timestamp);
      RollGrowsOn(old(roll), before, roll);
    }

    lemma HasRoom()
      requires Valid()
      ensures table.maxFlows > 0
    {
      hide Reassembler.Valid, QuicReassembler.Valid, ClientParser, Follows, Balanced;
    }

    /** Sweep when a pass is due. */
    method SweepIf(due: bool, now: Time)
      requires Valid() && Paced() && Traced()
      requires due ==> now > nextTick && firstPacket != UNSET && now <= lastNano + EPOCH
      modifies this`closed, this`roll, this`events, this`ticks, this`nextTick, reasm`pending, sreasm`pending
      modifies qreasm`pending
      modifies table`flows, table`expired, table`head, table`tail, table`order, table`contents, table.order
      ensures Valid() && Paced() && Traced() && RollGrows(old(roll), roll)
      ensures forall j | 0 <= j < |table.order| :: table.order[j] in old(table.order)
      ensures
        var n := if due then ExpiredPrefix(old(table.contents), now - table.idleTimeout) else 0;
        && table.contents == old(table.contents)[n..] && closed == old(closed) + old(table.contents)[..n]
        && Holding() == old(Holding()).Without(SetOf(KeysOf(old(table.contents)[..n])))
        && ticks == old(ticks) + (if due then [now] else [])
        && events == old(events) + (if due then [Expire(now)] else []) && PacketsOf(events) == PacketsOf(old(events))
        && (due ==> AllIdle(old(table.contents)[..n], now - table.idleTimeout))
        && (due && InOrder(PacketsOf(events)) ==> AllFresh(table.contents, now - table.idleTimeout))
    {
      hide Valid, Paced, ExpiredPrefix, RollClosed, LedTo, InOrder, PacketsOf, AllIdle, AllFresh;
      hide Holding, SetOf, KeysOf, Held.Without;
      NoneGone(Holding(), table.contents);
      if due {
        HasRoom();
        SweepGrows(roll, now);
        ExpiresRun(events, table.maxFlows, table.idleTimeout, table.contents, evicted, closed, now);
        Sweep(now);
        events := events + [Expire(now)];
      }
    }

    lemma SweepGrows(r: Roll, now: Time)
      requires Valid() && r == roll
      ensures var n := ExpiredPrefix(table.contents, now - table.idleTimeout); n <= |r.live| && RollGrows(r, RollClosed(r, n))
    {
      hide Valid, ExpiredPrefix;
      RollFits();
    }

    /** Add what a packet has done to the events. */
    ghost method Note(live: seq<Flow>, gone: seq<Flow>, p: Packet, r: Option<ClientResult>, rs: Option<Octets>)
      requires LedTo(events, table.maxFlows, table.idleTimeout, live, gone, closed)
      requires evicted == gone + Shed(live, p, table.maxFlows)
      requires table.contents == PrintedOn(Stay(live, p, table.maxFlows), KeyFor(p), r, rs)
      modifies `events
      ensures Traced() && events == old(events) + AdmitEvents(p, r, rs)
      ensures PacketsOf(events) == PacketsOf(old(events)) + [p]
    {
      hide LedTo, Stay, Shed, PrintedOn, AdmitEvents, PacketsOf;
      AdmitRuns(events, table.maxFlows, table.idleTimeout, live, gone, closed, p, r, rs);
      events := events + AdmitEvents(p, r, rs);
    }

    /** Fold a packet into its flow and fingerprint what it carries. */
    method Fold(p: Packet) returns (ghost r: Option<ClientResult>, ghost rs: Option<Octets>)
      requires Valid()
      modifies this`nPackets, this`nBytes, this`evicted, this`roll, this`nFingerprints, this`nEch, this`nServerPrints
      modifies table, table.order, reasm, sreasm, qreasm, qreasm.repr
      ensures nPackets == old(nPackets) + 1 && nBytes == old(nBytes) + p.wireLength && RollGrows(old(roll), roll)
      ensures SameButPrints(Stay(old(table.contents), p, table.maxFlows), table.contents)
      ensures table.contents == PrintedOn(Stay(old(table.contents), p, table.maxFlows), KeyFor(p), r, rs)
      ensures evicted == old(evicted) + Shed(old(table.contents), p, table.maxFlows)
      ensures Counts() == old(Counts()).With(r, rs)
      ensures fresh(qreasm.repr - old(qreasm.repr))
      ensures forall j | 0 <= j < |table.order| :: table.order[j] in old(table.order) || fresh(table.order[j])
      ensures Valid()
      ensures PacketFed(Given(), old(table.contents), table.maxFlows, p, old(Holding()), Holding(), r, rs)
    {
      hide Valid, SameButPrints, PrintedOn, Touched, Folded, Excess, Warmest;
      hide RollGrows, RollSeen, Fed, Holding, SetOf, KeysOf, Held.Without, Given, Tally.With, KeyFor;
      ghost var before, live := roll, table.contents;
      RollFits();
      var f := ObserveFlow(p);
      RollStepsGrow(before, live, p, Excess(|Touched(live, p)|, table.maxFlows), 0);
      r, rs := FingerprintTls(p, f);
    }

    /** The same, with its time noted and what was done added to the events; `due` when a scoring pass is to follow. */
    method Admit(p: Packet) returns (due: bool, ghost r: Option<ClientResult>, ghost rs: Option<Octets>)
      requires Valid() && Traced() && Paced()
      modifies this`firstPacket, this`nextTick, this`lastNano, this`nPackets, this`nBytes, this`evicted, this`roll
      modifies this`events, this`nFingerprints, this`nEch, this`nServerPrints
      modifies table, table.order, reasm, sreasm, qreasm, qreasm.repr
      ensures nPackets == old(nPackets) + 1 && nBytes == old(nBytes) + p.wireLength && RollGrows(old(roll), roll)
      ensures SameButPrints(Stay(old(table.contents), p, table.maxFlows), table.contents)
      ensures table.contents == PrintedOn(Stay(old(table.contents), p, table.maxFlows), KeyFor(p), r, rs)
      ensures evicted == old(evicted) + Shed(old(table.contents), p, table.maxFlows)
      ensures Counts() == old(Counts()).With(r, rs)
      ensures due == (old(firstPacket) != UNSET && p.timestamp > old(nextTick))
      ensures Paced() && (due ==> p.timestamp > nextTick && firstPacket != UNSET && p.timestamp <= lastNano + EPOCH)
      ensures fresh(qreasm.repr - old(qreasm.repr))
      ensures forall j | 0 <= j < |table.order| :: table.order[j] in old(table.order) || fresh(table.order[j])
      ensures Traced() && events == old(events) + AdmitEvents(p, r, rs)
      ensures PacketsOf(events) == PacketsOf(old(events)) + [p]
      ensures Valid()
      ensures PacketFed(Given(), old(table.contents), table.maxFlows, p, old(Holding()), Holding(), r, rs)
    {
      hide Valid, SameButPrints, PrintedOn, Stay, Shed, RollGrows, LedTo, AdmitEvents, PacketsOf, KeyFor, PacketFed;
      hide Holding, Paced;
      ghost var live, gone := table.contents, evicted;
      due := Clock(p.timestamp);
      r, rs := Fold(p);
      Note(live, gone, p, r, rs);
    }

    /** At the end of the capture every flow still open is closed, and one last scoring pass runs. */
    method Finish()
      requires Valid() && Paced()
      modifies this`closed, this`roll, this`ticks, reasm`pending, sreasm`pending, qreasm`pending
      modifies table`flows, table`head, table`tail, table`order, table`contents, table`drained
      ensures Valid() && table.contents == [] && table.order == [] && closed == old(closed) + old(table.contents)
      ensures reasm.pending == map[] && sreasm.pending == map[] && qreasm.pending == map[]
      ensures ticks == if lastNano != 0 then old(ticks) + [lastNano + EPOCH] else old(ticks)
    {
      hide Valid, Paced;
      DrainAll();
      if lastNano != 0 {
        ticks := ticks + [lastNano + EPOCH];
      }
    }

    method DrainAll()
      requires Valid()
      modifies this`closed, this`roll, reasm`pending, sreasm`pending, qreasm`pending
      modifies table`flows, table`head, table`tail, table`order, table`contents, table`drained
      ensures Valid() && table.contents == [] && table.order == [] && closed == old(closed) + old(table.contents)
      ensures reasm.pending == map[] && sreasm.pending == map[] && qreasm.pending == map[]
    {
      hide Follows, Balanced, Table.Valid, QuicReassembler.Valid, Reassembler.Valid, ClientParser, SetOf, KeysOf;
      hide RollClosed;
      RollFits();
      ghost var live := table.contents;
      assert live[..|live|] == live && live[|live|..] == [];
      FollowsShed(reasm.pending, sreasm.pending, qreasm.pending, live, |live|);
      CloseBalances(Books(live, evicted, closed, roll), |live|, table.created, nPackets, nBytes, nFingerprints);
      var out := table.Drain();
      closed := closed + out;
      roll := RollClosed(roll, |live|);
      ForgetAll(KeysOf(out));
      FollowsNone(reasm.pending, sreasm.pending, qreasm.pending);
    }

    lemma LastEntry(e: Entry)
      requires table.Valid() && table.order != [] && table.order[|table.order| - 1] == e
      ensures table.contents != [] && table.contents[|table.contents| - 1] == e.flow
    {
    }
  }

  lemma LastTouched(flows: seq<Flow>, p: Packet, k: nat)
    requires k < |Touched(flows, p)|
    ensures var rest := Touched(flows, p)[k..];
            rest[|rest| - 1] == Folded(flows, p) && Folded(flows, p).key == KeyFor(p)
  {
  }

  /** What fingerprinting writes on a flow. */
  function PrintedOn(flows: seq<Flow>, key: FlowKey, r: Option<ClientResult>, rs: Option<Octets>): seq<Flow> {
    if r.Some? then Fingerprinted(flows, key, r.value.ja4, r.value.ja3, r.value.serverName, r.value.alpn)
    else if rs.Some? then ServerFingerprinted(flows, key, rs.value)
    else flows
  }

  /** The run of these events leaves these flows live, and these evicted and expired. */
  ghost predicate LedTo(es: seq<Event>, maxFlows: nat, idle: nat, live: seq<Flow>, evicted: seq<Flow>, expired: seq<Flow>) {
    var h := FlowRuns.Run(es, maxFlows, idle);
    h.live == live && h.evicted == evicted && h.expired == expired
  }

  /** What a packet does to the table: it is folded in, and its prints are written. */
  function AdmitEvents(p: Packet, r: Option<ClientResult>, rs: Option<Octets>): seq<Event> {
    [Seen(p)] + PrintEvents(KeyFor(p), r, rs)
  }

  function PrintEvents(key: FlowKey, r: Option<ClientResult>, rs: Option<Octets>): seq<Event> {
    if r.Some? then [Print(key, r.value.ja4, r.value.ja3, r.value.serverName, r.value.alpn)]
    else if rs.Some? then [ServerPrint(key, rs.value)]
    else []
  }

  lemma NothingLedTo(maxFlows: nat, idle: nat)
    ensures LedTo([], maxFlows, idle, [], [], [])
  {
  }

  lemma PrintsRun(es: seq<Event>, key: FlowKey, r: Option<ClientResult>, rs: Option<Octets>, maxFlows: nat, idle: nat)
    ensures var h, g := FlowRuns.Run(es, maxFlows, idle), FlowRuns.Run(es + PrintEvents(key, r, rs), maxFlows, idle);
            g == h.(live := PrintedOn(h.live, key, r, rs))
    ensures PacketsOf(es + PrintEvents(key, r, rs)) == PacketsOf(es)
  {
    hide FlowRuns.Run, Fingerprinted, ServerFingerprinted;
    if r.Some? || rs.Some? {
      var e := PrintEvents(key, r, rs)[0];
      RunNext(es, e, maxFlows, idle);
      assert (es + [e])[..|es|] == es;
    } else {
      assert es + [] == es;
    }
  }

  /** All of these were last seen at or before `t`. */
  ghost predicate AllIdle(flows: seq<Flow>, t: Time) { forall f | f in flows :: f.lastSeen <= t }

  /** All of these were seen after `t`. */
  ghost predicate AllFresh(flows: seq<Flow>, t: Time) { forall f | f in flows :: f.lastSeen > t }

  /** The run after a sweep: with its packets in time order nothing idle is left. */
  lemma ExpiresRun(es: seq<Event>, maxFlows: nat, idle: nat, live: seq<Flow>, evicted: seq<Flow>, expired: seq<Flow>,
                   now: Time)
    requires maxFlows > 0 && LedTo(es, maxFlows, idle, live, evicted, expired)
    ensures
      var n := ExpiredPrefix(live, now - idle);
      && LedTo(es + [Expire(now)], maxFlows, idle, live[n..], evicted, expired + live[..n])
      && AllIdle(live[..n], now - idle) && (InOrder(PacketsOf(es)) ==> AllFresh(live[n..], now - idle))
    ensures PacketsOf(es + [Expire(now)]) == PacketsOf(es)
  {
    hide FlowRuns.Run, InOrder;
    RunNext(es, Expire(now), maxFlows, idle);
    assert (es + [Expire(now)])[..|es|] == es;
    if InOrder(PacketsOf(es)) {
      PacketsInOrder(es);
      ReapExact(es, maxFlows, idle, now - idle);
    }
  }

  lemma SeenRun(es: seq<Event>, p: Packet, maxFlows: nat, idle: nat)
    ensures
      var h, g := FlowRuns.Run(es, maxFlows, idle), FlowRuns.Run(es + [Seen(p)], maxFlows, idle);
      && g.live == Stay(h.live, p, maxFlows) && g.evicted == h.evicted + Shed(h.live, p, maxFlows) && g.expired == h.expired
      && PacketsOf(es + [Seen(p)]) == PacketsOf(es) + [p]
  {
    hide FlowRuns.Run, Touched, Excess, Holds;
    RunNext(es, Seen(p), maxFlows, idle);
    assert (es + [Seen(p)])[..|es|] == es;
  }

  /** The run after a packet and its prints, before anything expires. */
  lemma AdmitRuns(es: seq<Event>, maxFlows: nat, idle: nat, live: seq<Flow>, evicted: seq<Flow>, expired: seq<Flow>,
                  p: Packet, r: Option<ClientResult>, rs: Option<Octets>)
    requires LedTo(es, maxFlows, idle, live, evicted, expired)
    ensures
      LedTo(es + AdmitEvents(p, r, rs), maxFlows, idle, PrintedOn(Stay(live, p, maxFlows), KeyFor(p), r, rs),
            evicted + Shed(live, p, maxFlows), expired)
    ensures PacketsOf(es + AdmitEvents(p, r, rs)) == PacketsOf(es) + [p]
  {
    hide FlowRuns.Run, Stay, Shed, PrintedOn, PrintEvents, PacketsOf, KeyFor;
    SeenRun(es, p, maxFlows, idle);
    PrintsRun(es + [Seen(p)], KeyFor(p), r, rs, maxFlows, idle);
    assert es + AdmitEvents(p, r, rs) == es + [Seen(p)] + PrintEvents(KeyFor(p), r, rs);
  }

  function WireBytes(ps: seq<Packet>): nat {
    if ps == [] then 0 else WireBytes(ps[..|ps| - 1]) + ps[|ps| - 1].wireLength
  }

  lemma WireBytesNext(ps: seq<Packet>, i: nat)
    requires i < |ps|
    ensures WireBytes(ps[..i + 1]) == WireBytes(ps[..i]) + ps[i].wireLength
  {
    assert ps[..i + 1][..i] == ps[..i];
  }

  lemma WireBytesEnds(ps: seq<Packet>)
    ensures WireBytes(ps[..0]) == 0 && ps[..|ps|] == ps
  {
  }

  ghost predicate NonDecreasing(ts: seq<Time>) {
    forall i | 0 < i < |ts| :: ts[i - 1] <= ts[i]
  }

  /** The pipeline has seen nothing yet. */
  ghost predicate JustStarted(p: Pipeline)
    reads p, p.table, p.table.order, p.reasm, p.sreasm, p.qreasm, p.qreasm.repr
  {
    && p.Valid() && p.Paced() && p.Traced() && p.nPackets == 0 && p.nBytes == 0 && p.events == []
  }

  lemma TicksSorted(p: Pipeline)
    requires p.Paced()
    ensures NonDecreasing(p.ticks) && NonDecreasing(p.ticks + [p.lastNano + EPOCH])
  {
    var all := p.ticks + [p.lastNano + EPOCH];
    forall i | 0 < i < |all| ensures all[i - 1] <= all[i] {
      assert all[i - 1] == p.ticks[i - 1];
    }
  }

  lemma NoPackets()
    ensures PacketsOf([]) == []
  {
  }

  /** With no flow live the books say where everything went. */
  lemma BooksClosed(p: Pipeline)
    requires p.Valid() && p.table.contents == []
    ensures p.table.created == |p.evicted| + |p.closed| == |p.roll.births|
    ensures Enrolled(p.roll, [], p.evicted, p.closed)
    ensures p.nPackets == SumPackets(p.evicted) + SumPackets(p.closed)
    ensures p.nBytes == SumBytes(p.evicted) + SumBytes(p.closed)
    ensures p.nFingerprints == Printed(p.evicted) + Printed(p.closed)
  {
    hide Pipeline.Owns, Follows;
  }

  /**
   A whole run. Whatever mix of eviction, expiry and completion it takes: nothing stays pending,
   every flow created was evicted or closed, never both and only once, and the packets, bytes and
   fingerprints counted are those of these flows together. The table went through a run of events
   with exactly these packets: what was evicted and what was closed are those of that run.
   */
  method Run(p: Pipeline, packets: seq<Packet>)
    requires JustStarted(p)
    modifies p, p.table, p.table.order, p.reasm, p.sreasm, p.qreasm, p.qreasm.repr
    ensures p.reasm.pending == map[] && p.sreasm.pending == map[] && p.qreasm.pending == map[]
    ensures p.table.contents == [] && p.table.created == |p.evicted| + |p.closed| == |p.roll.births|
    ensures Enrolled(p.roll, [], p.evicted, p.closed)
    ensures p.nPackets == |packets| == SumPackets(p.evicted) + SumPackets(p.closed)
    ensures p.nBytes == WireBytes(packets) == SumBytes(p.evicted) + SumBytes(p.closed)
    ensures p.nFingerprints == Printed(p.evicted) + Printed(p.closed)
    ensures NonDecreasing(p.ticks)
    ensures PacketsOf(p.events) == packets
    ensures var h := FlowRuns.Run(p.events, p.table.maxFlows, p.table.idleTimeout);
            p.evicted == h.evicted && p.closed == h.expired + h.live
  {
    hide Pipeline.Valid, Pipeline.Paced, WireBytes, SumPackets, SumBytes, Printed, NonDecreasing;
    hide SameButPrints, Stay, Shed, ExpiredPrefix, FlowRuns.Run, PacketsOf, AdmitEvents, PrintedOn, InOrder;
    hide Pipeline.Traced, Enrolled, RollGrows, AllIdle, AllFresh, KeyFor, PacketFed, Pipeline.Holding, Pipeline.Given;
    hide Pipeline.Counts, Tally.With, SetOf, KeysOf, Held.Without;
    NoPackets();
    ghost var order, repr := p.table.order, p.qreasm.repr;
    WireBytesEnds(packets);
    for i := 0 to |packets|
      invariant p.Valid() && p.Paced() && p.Traced() && PacketsOf(p.events) == packets[..i] && p.nPackets == i
      invariant p.nBytes == WireBytes(packets[..i])
      invariant forall j | 0 <= j < |p.table.order| :: p.table.order[j] in order || fresh(p.table.order[j])
      invariant fresh(p.qreasm.repr - repr)
    {
      WireBytesNext(packets, i);
      assert packets[..i + 1] == packets[..i] + [packets[i]];
      var _, _, _, _ := p.Handle(packets[i]);
    }
    TicksSorted(p);
    p.TraceIs();
    assert packets[..|packets|] == packets;
    p.Finish();
    BooksClosed(p);
  }
}
