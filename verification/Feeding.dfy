/** What a packet's payload does to the state held for flows whose hello has not come whole, and what it yields. */
module Feeding {
  import opened Bytes
  import opened Flows
  import opened FlowTable
  import opened Keys
  import opened Frames
  import opened Reassembly
  import opened QuicReassembly

  /** What the three reassemblers hold: bytes of clients and servers, and the fragments of QUIC clients. */
  datatype Held = Held(client: map<FlowKey, Octets>, server: map<FlowKey, Octets>, quic: map<FlowKey, seq<CryptoFrame>>)
  {
    function Without(keys: set<FlowKey>): Held { Held(client - keys, server - keys, quic - keys) }
  }

  /** What the reassemblers were given: digests, QUIC's primitives, the server's parser, and room for so many flows each. */
  datatype Kit = Kit(h: Hashes, c: Primitives, serverParse: Octets -> Verdict<Octets>, room: nat)

  /** The fingerprints counted: of clients, of those showing encrypted client hello, and of servers. */
  datatype Tally = Tally(prints: nat, ech: nat, serverPrints: nat)
  {
    function With(r: Option<ClientResult>, rs: Option<Octets>): Tally {
      Tally(prints + (if r.Some? then 1 else 0), ech + (if r.Some? && r.value.hasEch then 1 else 0),
            serverPrints + if rs.Some? then 1 else 0)
    }
  }

  /** No other flow loses its place, but one when the map is full and a new flow takes a place in it. */
  ghost predicate Displaces<V>(key: FlowKey, before: map<FlowKey, V>, after: map<FlowKey, V>, room: nat, opens: bool) {
    exists victim: Option<FlowKey> ::
      && Untouched(key, victim, before, after)
      && (victim.Some? ==> victim.value in before && key !in before && |before| == room && opens)
  }

  ghost predicate FedTcp<R>(parse: Octets -> Verdict<R>, room: nat, key: FlowKey, payload: Octets,
                            before: map<FlowKey, Octets>, after: map<FlowKey, Octets>, r: Option<R>) {
    && (Lookup(after, key), r) == FeedStep(parse, Lookup(before, key), payload)
    && Displaces(key, before, after, room, Opens(payload))
  }

  /** These fragments decide whether their flow waits, and what it yields. */
  ghost predicate Decided(h: Hashes, frames: seq<CryptoFrame>, waiting: bool, r: Option<ClientResult>) {
    exists t: Trace :: t.frames == frames && Settled(h, t, waiting, r)
  }

  ghost predicate FedQuic(k: Kit, key: FlowKey, datagram: Octets, before: map<FlowKey, seq<CryptoFrame>>,
                          after: map<FlowKey, seq<CryptoFrame>>, r: Option<ClientResult>) {
    && k.c.Sound()
    && var fs := FramesOf(k.c, datagram);
       && Displaces(key, before, after, k.room, fs != [])
       && if fs == [] then r == None && after == before
          else if !AllInBounds(fs) then r == None && key !in after
          else
            var all := (if key in before then before[key] else []) + fs;
            Decided(k.h, all, key in after, r) && (key in after ==> after[key] == all)
  }

  /** A client's payload that counts: its flow has no fingerprint yet. */
  predicate ClientTurn(f: Flow, p: Packet) { p.payload != [] && p.src == f.client && f.ja4 == [] }

  /** A server's payload that counts: its flow has no server fingerprint yet, and an observer can read it. */
  predicate ServerTurn(f: Flow, p: Packet) { p.payload != [] && p.src != f.client && f.ja4s == [] && p.proto == PROTO_TCP }

  ghost predicate ClientFed(k: Kit, f: Flow, p: Packet, before: Held, after: Held, r: Option<ClientResult>) {
    if ClientTurn(f, p) && p.proto == PROTO_TCP then
      FedTcp(ClientParser(k.h), k.room, KeyFor(p), p.payload, before.client, after.client, r) && after.quic == before.quic
    else if ClientTurn(f, p) && p.proto == PROTO_UDP then
      FedQuic(k, KeyFor(p), p.payload, before.quic, after.quic, r) && after.client == before.client
    else r == None && after.client == before.client && after.quic == before.quic
  }

  ghost predicate ServerFed(k: Kit, f: Flow, p: Packet, before: Held, after: Held, rs: Option<Octets>) {
    if ServerTurn(f, p) then FedTcp(k.serverParse, k.room, KeyFor(p), p.payload, before.server, after.server, rs)
    else rs == None && after.server == before.server
  }

  /** A packet of flow `f` feeds at most one reassembler: that of its direction and transport. */
  ghost predicate Fed(k: Kit, f: Flow, p: Packet, before: Held, after: Held, r: Option<ClientResult>, rs: Option<Octets>) {
    ClientFed(k, f, p, before, after, r) && ServerFed(k, f, p, before, after, rs)
  }

  function SetOf(keys: seq<FlowKey>): set<FlowKey> { set k | k in keys }

  /** A packet on these live flows: what was held for those it evicts goes, then its payload is fed. */
  ghost predicate PacketFed(k: Kit, live: seq<Flow>, maxFlows: nat, p: Packet, before: Held, after: Held,
                            r: Option<ClientResult>, rs: Option<Octets>) {
    Fed(k, Folded(live, p), p, before.Without(SetOf(KeysOf(Shed(live, p, maxFlows)))), after, r, rs)
  }

  // --- the streams behind the fragments ---

  /** The fragments brought for each flow that waits. */
  ghost function Brought<V>(pending: map<FlowKey, V>, traces: map<FlowKey, Trace>): map<FlowKey, seq<CryptoFrame>> {
    map k | k in pending && k in traces :: traces[k].frames
  }

  ghost predicate AllTraced<V>(pending: map<FlowKey, V>, traces: map<FlowKey, Trace>) { forall k | k in pending :: k in traces }

  lemma BroughtKeys<V>(pending: map<FlowKey, V>, traces: map<FlowKey, Trace>)
    requires AllTraced(pending, traces)
    ensures Brought(pending, traces).Keys == pending.Keys && |Brought(pending, traces)| == |pending|
    ensures forall k | k in pending :: Brought(pending, traces)[k] == traces[k].frames
  {
    var b := Brought(pending, traces);
    assert b.Keys == pending.Keys;
    assert |b.Keys| == |b| && |pending.Keys| == |pending|;
  }

  lemma BroughtUntouched<V>(key: FlowKey, victim: Option<FlowKey>, pending: map<FlowKey, V>,
                            traces: map<FlowKey, Trace>,
                            after: map<FlowKey, V>, traced: map<FlowKey, Trace>)
    requires Untouched(key, victim, pending, after) && Untouched(key, None, traces, traced)
    requires AllTraced(pending, traces) && AllTraced(after, traced)
    ensures Untouched(key, victim, Brought(pending, traces), Brought(after, traced))
  {
    forall k | k != key
      ensures Lookup(Brought(after, traced), k) == if victim == Some(k) then None else Lookup(Brought(pending, traces), k)
    {
      assert Lookup(after, k) == if victim == Some(k) then None else Lookup(pending, k);
      assert Lookup(traced, k) == Lookup(traces, k);
    }
  }

  lemma BroughtWithout<V>(pending: map<FlowKey, V>, traces: map<FlowKey, Trace>, keys: set<FlowKey>)
    ensures Brought(pending - keys, traces) == Brought(pending, traces) - keys
  {
  }

  /** What feeding a datagram says of the fragments held. */
  lemma QuicFedIs<V>(k: Kit, key: FlowKey, datagram: Octets, pending: map<FlowKey, V>, traces: map<FlowKey, Trace>,
                     after: map<FlowKey, V>, traced: map<FlowKey, Trace>, victim: Option<FlowKey>, r: Option<ClientResult>)
    requires k.c.Sound() && AllTraced(pending, traces) && AllTraced(after, traced)
    requires Untouched(key, victim, pending, after) && Untouched(key, None, traces, traced)
    requires victim.Some? ==> victim.value in pending && key !in pending && |pending| == k.room && FramesOf(k.c, datagram) != []
    requires
      var fs := FramesOf(k.c, datagram);
      if fs == [] then r == None && after == pending && traced == traces
      else if !AllInBounds(fs) then r == None && key !in after
      else
        && key in traced && traced[key].frames == (if key in pending then traces[key].frames else []) + fs
        && Settled(k.h, traced[key], key in after, r)
    ensures FedQuic(k, key, datagram, Brought(pending, traces), Brought(after, traced), r)
  {
    hide FramesOf, AllInBounds, Settled, Untouched, Brought, Primitives.Sound;
    BroughtKeys(pending, traces);
    BroughtKeys(after, traced);
    BroughtUntouched(key, victim, pending, traces, after, traced);
  }

  lemma QuicPrints(k: Kit, key: FlowKey, datagram: Octets, before: map<FlowKey, seq<CryptoFrame>>,
                   after: map<FlowKey, seq<CryptoFrame>>, r: Option<ClientResult>)
    requires FedQuic(k, key, datagram, before, after, r)
    ensures r.Some? ==> r.value.ja4 != []
  {
    hide FramesOf, AllInBounds, Displaces, Primitives.Sound, Settled;
    if r.Some? {
      var waiting := key in after;
      var frames := (if key in before then before[key] else []) + FramesOf(k.c, datagram);
      var t: Trace :| t.frames == frames && Settled(k.h, t, waiting, r);
      SettledPrints(k.h, t, waiting, r);
    }
  }

  lemma SettledPrints(h: Hashes, t: Trace, waiting: bool, r: Option<ClientResult>)
    requires Settled(h, t, waiting, r)
    ensures r.Some? ==> r.value.ja4 != []
  {
  }

  // --- a flow among the live ones ---

  /** The flow of a key, if it is live. */
  function FlowOf(flows: seq<Flow>, key: FlowKey): Option<Flow> {
    var i := IndexOf(flows, key);
    if i < |flows| then Some(flows[i]) else None
  }

  /** A flow with what was found written on it. */
  function WithPrints(f: Flow, r: Option<ClientResult>, rs: Option<Octets>): Flow {
    if r.Some? then
      f.(ja4 := r.value.ja4, ja3 := r.value.ja3, sni := if r.value.serverName != [] then r.value.serverName else f.sni,
         alpn := if r.value.alpn != [] then r.value.alpn else f.alpn)
    else if rs.Some? then f.(ja4s := rs.value)
    else f
  }
}
