/** Packets, canonical flow keys and the flow record a conversation accumulates. */
module Flows {
  import opened Bytes

  /** Addresses, of which only the total order matters. */
  type Addr = nat

  /** Instants in nanoseconds since the zero time, which stands for unset. */
  type Time = int

  const UNSET: Time := 0

  const PROTO_TCP := 6
  const PROTO_UDP := 17

  datatype Endpoint = Endpoint(addr: Addr, port: Uint16)

  datatype Packet = Packet(
    timestamp: Time,
    src: Endpoint,
    dst: Endpoint,
    proto: Byte,
    syn: bool,
    ack: bool,
    wireLength: nat,
    payload: Octets)
  {
    /** A connection attempt. */
    predicate IsSyn() { proto == PROTO_TCP && syn && !ack }

    /** A connection accepted. */
    predicate IsSynAck() { proto == PROTO_TCP && syn && ack }
  }

  /** The two endpoints in canonical order. */
  datatype FlowKey = FlowKey(a: Endpoint, b: Endpoint, proto: Byte)

  predicate EndpointLess(x: Endpoint, y: Endpoint) {
    if x.addr != y.addr then x.addr < y.addr else x.port < y.port
  }

  function KeyFor(p: Packet): FlowKey {
    if EndpointLess(p.src, p.dst) then FlowKey(p.src, p.dst, p.proto) else FlowKey(p.dst, p.src, p.proto)
  }

  /** Two packets share a key exactly when they join the same two endpoints, in either direction; the lesser comes first. */
  lemma KeyIgnoresDirection(p: Packet, q: Packet)
    ensures KeyFor(p) == KeyFor(q) <==>
              p.proto == q.proto && ((p.src == q.src && p.dst == q.dst) || (p.src == q.dst && p.dst == q.src))
    ensures !EndpointLess(KeyFor(p).b, KeyFor(p).a)
  {
    assert p.src == p.dst || EndpointLess(p.src, p.dst) != EndpointLess(p.dst, p.src);
  }

  datatype Flow = Flow(
    key: FlowKey,
    client: Endpoint,
    server: Endpoint,
    proto: Byte,
    firstSeen: Time,
    lastSeen: Time,
    packetsToServer: nat,
    packetsToClient: nat,
    bytesToServer: nat,
    bytesToClient: nat,
    clientIdentified: bool,
    sni: Octets,
    alpn: Octets,
    ja4: Octets,
    ja3: Octets,
    ja4s: Octets)
  {
    function Packets(): nat { packetsToServer + packetsToClient }

    function TotalBytes(): nat { bytesToServer + bytesToClient }

    /** The record with one more packet folded in. */
    function Observe(p: Packet): (f: Flow)
      ensures f.key == key
    {
      var f0 := if firstSeen == UNSET
                then this.(firstSeen := p.timestamp, client := p.src, server := p.dst, proto := p.proto)
                else this;
      var f1 := if p.timestamp > f0.lastSeen then f0.(lastSeen := p.timestamp) else f0;
      var f2 := if !f1.clientIdentified && p.IsSyn()
                then f1.(client := p.src, server := p.dst, clientIdentified := true)
                else f1;
      if p.src == f2.client
      then f2.(packetsToServer := f2.packetsToServer + 1, bytesToServer := f2.bytesToServer + p.wireLength)
      else f2.(packetsToClient := f2.packetsToClient + 1, bytesToClient := f2.bytesToClient + p.wireLength)
    }

    /** Client and server are the two endpoints of the key. */
    ghost predicate Oriented() {
      (client == key.a && server == key.b) || (client == key.b && server == key.a)
    }
  }

  const NOWHERE := Endpoint(0, 0)

  function NewFlow(key: FlowKey): Flow {
    Flow(key, NOWHERE, NOWHERE, 0, UNSET, UNSET, 0, 0, 0, 0, false, [], [], [], [], [])
  }

  /**
   One packet adds exactly one packet and its wire length to the record, to the server when the client
   sent it and to the client otherwise; `lastSeen` is the latest timestamp whatever order packets come
   in, and `firstSeen` the first one's. Nothing found so far is touched.
   */
  lemma ObserveAccounts(f: Flow, p: Packet)
    ensures
      var g := f.Observe(p);
      && g.Packets() == f.Packets() + 1 && g.TotalBytes() == f.TotalBytes() + p.wireLength
      && g.packetsToServer - f.packetsToServer == (if p.src == g.client then 1 else 0)
      && g.bytesToServer - f.bytesToServer == (if p.src == g.client then p.wireLength else 0)
      && g.lastSeen == Max(f.lastSeen, p.timestamp)
      && g.firstSeen == (if f.firstSeen == UNSET then p.timestamp else f.firstSeen)
      && g.ja4 == f.ja4 && g.ja3 == f.ja3 && g.ja4s == f.ja4s && g.sni == f.sni && g.alpn == f.alpn
  {
  }

  /**
   The client stays one of the key's two endpoints: the source of the first packet, until a SYN
   names it for good.
   */
  lemma ObserveOrients(f: Flow, p: Packet)
    requires KeyFor(p) == f.key && (f.firstSeen == UNSET || f.Oriented())
    requires f.clientIdentified ==> f.firstSeen != UNSET
    ensures var g := f.Observe(p);
            && g.Oriented()
            && (f.clientIdentified ==> g.client == f.client && g.server == f.server)
            && (p.IsSyn() && !f.clientIdentified ==> g.client == p.src && g.clientIdentified)
            && (!p.IsSyn() ==> g.clientIdentified == f.clientIdentified)
            && (!p.IsSyn() && !f.clientIdentified ==> g.client == if f.firstSeen == UNSET then p.src else f.client)
  {
  }

  // --- a flow over all its packets ---

  /** The record a new flow comes to over these packets. */
  function Folding(key: FlowKey, ps: seq<Packet>): Flow {
    if ps == [] then NewFlow(key) else Folding(key, ps[..|ps| - 1]).Observe(ps[|ps| - 1])
  }

  /** Who sent the first connection attempt. */
  function Opener(ps: seq<Packet>): Option<Endpoint> {
    if ps == [] then None
    else
      var before, p := Opener(ps[..|ps| - 1]), ps[|ps| - 1];
      if before.Some? then before else if p.proto == 6 && p.syn && !p.ack then Some(p.src) else None
  }

  /** Who sent the first packet, or from the first connection attempt on, who made that. */
  function ClientOf(ps: seq<Packet>): Endpoint
    requires ps != []
  {
    if Opener(ps).Some? then Opener(ps).value else ps[0].src
  }

  /** How many of the packets their sender, as far as was known then, sent as the client, and their bytes. */
  function FromClient(ps: seq<Packet>): (nat, nat) {
    if ps == [] then (0, 0)
    else
      var (n, bytes) := FromClient(ps[..|ps| - 1]);
      var p := ps[|ps| - 1];
      if p.src == ClientOf(ps) then (n + 1, bytes + p.wireLength) else (n, bytes)
  }

  /** A flow's client is the source of its first packet until a SYN names it, and each packet counts for its direction. */
  lemma {:induction false} FoldingReads(key: FlowKey, ps: seq<Packet>)
    requires ps != [] && forall p | p in ps :: p.timestamp != UNSET
    ensures
      var f := Folding(key, ps);
      && f.key == key && f.firstSeen == ps[0].timestamp && f.client == ClientOf(ps) && f.clientIdentified == Opener(ps).Some?
      && f.Packets() == |ps| && (f.packetsToServer, f.bytesToServer) == FromClient(ps)
    decreases |ps|
  {
    hide Flow.Observe, Packet.IsSyn;
    var before, p := ps[..|ps| - 1], ps[|ps| - 1];
    assert p in ps && ps[0] in ps;
    Observed(Folding(key, before), p);
    if before != [] {
      FoldingReads(key, before);
      assert before[0] == ps[0];
    } else {
      assert Folding(key, before) == NewFlow(key) && Opener(before) == None;
    }
  }

  /** Who the client is after one more packet, and whether it counts as the client's. */
  lemma Observed(f: Flow, p: Packet)
    ensures
      var g, syn := f.Observe(p), p.proto == 6 && p.syn && !p.ack;
      && g.client == (if syn && !f.clientIdentified then p.src else if f.firstSeen == UNSET then p.src else f.client)
      && g.clientIdentified == (f.clientIdentified || syn) && g.Packets() == f.Packets() + 1
      && g.firstSeen == (if f.firstSeen == UNSET then p.timestamp else f.firstSeen)
      && g.packetsToServer == f.packetsToServer + (if p.src == g.client then 1 else 0)
      && g.bytesToServer == f.bytesToServer + (if p.src == g.client then p.wireLength else 0)
  {
  }
}
