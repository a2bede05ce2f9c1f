/**
 From packets to the fingerprint on a flow: the packet loop over one conversation, whatever else the
 table and the reassemblers hold.
 */
module Conversations {
  import opened Bytes
  import opened Flows
  import opened FlowTable
  import opened FlowRuns
  import opened Rolls
  import opened Ledger
  import opened Keys
  import opened Frames
  import opened Initial
  import opened ClientHellos
  import opened CryptoStreams
  import opened HelloBuild
  import opened Fingerprints
  import opened Records
  import opened Reassembly
  import opened QuicReassembly
  import opened QuicRoundTrip
  import opened Feeding
  import opened Pipelines

  // --- one packet, seen from its flow ---

  /** One datagram, seen from the flow it is fed for. */
  ghost predicate QuicTurn(k: Kit, datagram: Octets, before: Option<seq<CryptoFrame>>, after: Option<seq<CryptoFrame>>,
                           r: Option<ClientResult>) {
    && k.c.Sound()
    && var fs := FramesOf(k.c, datagram);
       if fs == [] then r == None && after == before
       else if !AllInBounds(fs) then r == None && after == None
       else
         var all := (if before.Some? then before.value else []) + fs;
         Decided(k.h, all, after.Some?, r) && (after.Some? ==> after.value == all)
  }

  /** What is held of a flow's client. */
  datatype Part = Part(bytes: Option<Octets>, fragments: Option<seq<CryptoFrame>>)

  function PartOf(held: Held, key: FlowKey): Part { Part(Lookup(held.client, key), Lookup(held.quic, key)) }

  /** One packet of the flow, which `f` is with the packet folded in. */
  ghost predicate Turn(k: Kit, f: Flow, p: Packet, before: Part, after: Part, r: Option<ClientResult>) {
    if ClientTurn(f, p) && p.proto == PROTO_TCP then
      (after.bytes, r) == FeedStep(ClientParser(k.h), before.bytes, p.payload) && after.fragments == before.fragments
    else if ClientTurn(f, p) && p.proto == PROTO_UDP then
      QuicTurn(k, p.payload, before.fragments, after.fragments, r) && after.bytes == before.bytes
    else r == None && after == before
  }

  /** The same for what is held of the flow's server. */
  ghost predicate Reply(k: Kit, f: Flow, p: Packet, before: Option<Octets>, after: Option<Octets>, rs: Option<Octets>) {
    if ServerTurn(f, p) then (after, rs) == FeedStep(k.serverParse, before, p.payload) else rs == None && after == before
  }

  lemma FedTurns(k: Kit, f: Flow, p: Packet, before: Held, after: Held, r: Option<ClientResult>, rs: Option<Octets>)
    requires Fed(k, f, p, before, after, r, rs)
    ensures Turn(k, f, p, PartOf(before, KeyFor(p)), PartOf(after, KeyFor(p)), r)
    ensures Reply(k, f, p, Lookup(before.server, KeyFor(p)), Lookup(after.server, KeyFor(p)), rs)
    ensures r.Some? ==> rs == None
  {
    hide FeedStep, FramesOf, AllInBounds, Decided, Displaces, Primitives.Sound, KeyFor;
  }

  /** The flow just touched is at the warm end, and no other has its key. */
  lemma StayLast(live: seq<Flow>, p: Packet, maxFlows: nat)
    requires DistinctKeys(live)
    ensures var s := Stay(live, p, maxFlows);
            && s != [] && s[|s| - 1] == Folded(live, p) && Folded(live, p).key == KeyFor(p)
            && forall i | 0 <= i < |s| - 1 :: s[i].key != KeyFor(p)
    ensures forall f | f in Shed(live, p, maxFlows) :: f.key != KeyFor(p)
  {
    WithoutElements(live, KeyFor(p));
    hide Without, IndexOf, Flow.Observe, KeyFor;
    var w := Without(live, KeyFor(p));
    var touched := Touched(live, p);
    assert forall i | 0 <= i < |w| :: touched[i] == w[i];
  }

  lemma PrintedLast(s: seq<Flow>, r: Option<ClientResult>, rs: Option<Octets>)
    requires s != [] && forall i | 0 <= i < |s| - 1 :: s[i].key != s[|s| - 1].key
    ensures var last := s[|s| - 1]; PrintedOn(s, last.key, r, rs) == s[|s| - 1 := WithPrints(last, r, rs)]
  {
    assert IndexOf(s, s[|s| - 1].key) == |s| - 1;
    hide IndexOf;
  }

  lemma LastOf(flows: seq<Flow>, n: nat)
    requires n < |flows| && forall i | 0 <= i < |flows| - 1 :: flows[i].key != flows[|flows| - 1].key
    ensures var last := flows[|flows| - 1];
            FlowOf(flows[n..], last.key) == Some(last) && last.key !in KeysOf(flows[..n])
  {
    var last := flows[|flows| - 1];
    assert flows[n..][|flows| - 1 - n] == last;
  }

  /** A packet's flow stays live, with the packet folded in and what was found written on it. */
  lemma FlowAfter(live: seq<Flow>, p: Packet, maxFlows: nat, observed: seq<Flow>, n: nat, r: Option<ClientResult>,
                  rs: Option<Octets>)
    requires DistinctKeys(live) && observed == PrintedOn(Stay(live, p, maxFlows), KeyFor(p), r, rs)
    requires n < |observed|
    ensures FlowOf(observed[n..], KeyFor(p)) == Some(WithPrints(Folded(live, p), r, rs))
    ensures KeyFor(p) !in SetOf(KeysOf(observed[..n])) && KeyFor(p) !in SetOf(KeysOf(Shed(live, p, maxFlows)))
    ensures observed[|observed| - 1] == WithPrints(Folded(live, p), r, rs)
  {
    hide KeyFor, Folded, Stay, Shed, PrintedOn, FlowOf, KeysOf;
    var s := Stay(live, p, maxFlows);
    StayLast(live, p, maxFlows);
    PrintedLast(s, r, rs);
    LastOf(observed, n);
    NotAmong(Shed(live, p, maxFlows), KeyFor(p));
  }

  lemma NotAmong(flows: seq<Flow>, key: FlowKey)
    requires forall f | f in flows :: f.key != key
    ensures key !in KeysOf(flows)
  {
  }

  lemma FoldedOf(live: seq<Flow>, p: Packet)
    ensures Folded(live, p) == (var f := FlowOf(live, KeyFor(p)); if f.Some? then f.value else NewFlow(KeyFor(p))).Observe(p)
  {
    hide Flow.Observe, IndexOf, KeyFor;
  }

  lemma PartKept(held: Held, keys: set<FlowKey>, key: FlowKey)
    requires key !in keys
    ensures PartOf(held.Without(keys), key) == PartOf(held, key)
    ensures Lookup(held.Without(keys).server, key) == Lookup(held.server, key)
  {
  }

  /** One packet handled, seen from its own flow, which stays live. */
  method TakeTurn(pl: Pipeline, p: Packet) returns (ghost r: Option<ClientResult>, ghost rs: Option<Octets>)
    requires pl.Valid() && pl.Paced() && pl.Traced() && pl.table.idleTimeout > 0
    modifies pl, pl.table, pl.table.order, pl.reasm, pl.sreasm, pl.qreasm, pl.qreasm.repr
    ensures pl.Valid() && pl.Paced() && pl.Traced() && fresh(pl.qreasm.repr - old(pl.qreasm.repr))
    ensures forall j | 0 <= j < |pl.table.order| :: pl.table.order[j] in old(pl.table.order) || fresh(pl.table.order[j])
    ensures pl.nFingerprints == old(pl.nFingerprints) + (if r.Some? then 1 else 0) && (r.Some? ==> rs == None)
    ensures pl.nEch == old(pl.nEch) + if r.Some? && r.value.hasEch then 1 else 0
    ensures pl.nServerPrints == old(pl.nServerPrints) + if rs.Some? then 1 else 0
    ensures
      var f := Folded(old(pl.table.contents), p);
      && FlowOf(pl.table.contents, KeyFor(p)) == Some(WithPrints(f, r, rs))
      && Turn(pl.Given(), f, p, PartOf(old(pl.Holding()), KeyFor(p)), PartOf(pl.Holding(), KeyFor(p)), r)
      && Reply(pl.Given(), f, p, Lookup(old(pl.Holding()).server, KeyFor(p)), Lookup(pl.Holding().server, KeyFor(p)), rs)
  {
    hide Pipeline.Valid, Pipeline.Paced, Pipeline.Traced, Pipeline.Holding, Pipeline.Given, SameButPrints, PrintedOn;
    hide Stay, Shed;
    hide AdmitEvents, PacketsOf, InOrder, AllIdle, AllFresh, RollGrows, KeyFor, Folded, FlowOf, WithPrints, Turn;
    hide PartOf, Held.Without;
    hide Reply, Lookup, SetOf, KeysOf, Fed, ExpiredPrefix;
    ghost var live, before := pl.table.contents, pl.Holding();
    LiveDistinct(pl);
    ghost var observed, held;
    observed, held, r, rs := pl.Handle(p);
    ghost var n := |observed| - |pl.table.contents|;
    ghost var gone := before.Without(SetOf(KeysOf(Shed(live, p, pl.table.maxFlows))));
    FedTurns(pl.Given(), Folded(live, p), p, gone, held, r, rs);
    Spared(live, p, pl.table.maxFlows, observed, pl.table.idleTimeout, r, rs);
    FlowAfter(live, p, pl.table.maxFlows, observed, n, r, rs);
    PartKept(before, SetOf(KeysOf(Shed(live, p, pl.table.maxFlows))), KeyFor(p));
    PartKept(held, SetOf(KeysOf(observed[..n])), KeyFor(p));
  }

  lemma LiveDistinct(pl: Pipeline)
    requires pl.Valid()
    ensures DistinctKeys(pl.table.contents)
  {
    hide Follows, Balanced;
    pl.TableDistinct();
  }

  /** The flow just touched is not among those expired after it. */
  lemma Spared(live: seq<Flow>, p: Packet, maxFlows: nat, observed: seq<Flow>, idle: nat, r: Option<ClientResult>,
               rs: Option<Octets>)
    requires DistinctKeys(live) && idle > 0 && observed == PrintedOn(Stay(live, p, maxFlows), KeyFor(p), r, rs)
    ensures observed != [] && ExpiredPrefix(observed, p.timestamp - idle) < |observed|
  {
    hide KeyFor, Folded, Stay, Shed, PrintedOn, ExpiredPrefix;
    var s := Stay(live, p, maxFlows);
    StayLast(live, p, maxFlows);
    PrintedLast(s, r, rs);
    LastSeenLate(live, p);
    assert observed[|observed| - 1].lastSeen == Folded(live, p).lastSeen > p.timestamp - idle;
  }

  lemma LastSeenLate(live: seq<Flow>, p: Packet)
    ensures Folded(live, p).lastSeen >= p.timestamp
  {
    hide IndexOf, KeyFor;
  }

  // --- a conversation ---

  /** A payload that may carry the hello of a server or a client; over UDP, a datagram with fragments of one. */
  ghost predicate Tells(k: Kit, p: Packet, client: Endpoint, server: bool) {
    && p.payload != [] && (p.src == client <==> !server)
    && (p.proto == PROTO_UDP ==> k.c.Sound() && FramesOf(k.c, p.payload) != [])
  }

  /** What the server, or the client, says in order. */
  ghost function Said(k: Kit, ps: seq<Packet>, client: Endpoint, server: bool): seq<Octets> {
    if ps == [] then []
    else
      var p := ps[|ps| - 1];
      Said(k, ps[..|ps| - 1], client, server) + if Tells(k, p, client, server) then [p.payload] else []
  }

  lemma SaidNext(k: Kit, ps: seq<Packet>, client: Endpoint, server: bool, i: nat)
    requires i < |ps|
    ensures Said(k, ps[..i + 1], client, server) == Said(k, ps[..i], client, server) + if Tells(k, ps[i], client, server) then [ps[i].payload] else []
  {
    hide Tells;
    assert ps[..i + 1][..i] == ps[..i];
  }

  lemma {:induction false} SaidSoFar(k: Kit, ps: seq<Packet>, client: Endpoint, server: bool, i: nat)
    requires i <= |ps|
    ensures Said(k, ps[..i], client, server) <= Said(k, ps, client, server)
    decreases |ps|
  {
    hide Tells;
    if i == |ps| {
      assert ps[..i] == ps;
    } else {
      SaidSoFar(k, ps[..|ps| - 1], client, server, i);
      assert ps[..|ps| - 1][..i] == ps[..i];
    }
  }

  /** Packets of one flow, in both directions; only its client opens connections. */
  ghost predicate Conversation(ps: seq<Packet>, key: FlowKey, proto: Byte, client: Endpoint) {
    forall p | p in ps :: KeyFor(p) == key && p.proto == proto && p.timestamp != UNSET && (p.IsSyn() ==> p.src == client)
  }

  /** The flow is live and the client's, or starts with a packet of the client's. */
  ghost predicate Faces(f: Option<Flow>, p: Packet, client: Endpoint) {
    if f.Some? then f.value.client == client && f.value.firstSeen != UNSET else p.src == client
  }

  lemma FacesOn(f: Option<Flow>, p: Packet, client: Endpoint, r: Option<ClientResult>, rs: Option<Octets>, next: Packet)
    requires Faces(f, p, client) && p.timestamp != UNSET && (p.IsSyn() ==> p.src == client)
    ensures var g := (if f.Some? then f.value else NewFlow(KeyFor(p))).Observe(p);
            && g.client == client && g.ja4 == (if f.Some? then f.value.ja4 else [])
            && g.ja3 == (if f.Some? then f.value.ja3 else [])
            && g.ja4s == (if f.Some? then f.value.ja4s else [])
            && g.sni == (if f.Some? then f.value.sni else []) && g.alpn == (if f.Some? then f.value.alpn else [])
            && Faces(Some(WithPrints(g, r, rs)), next, client)
  {
    hide KeyFor;
  }

  /** The flow shows the fingerprints of a hello, and the names it gave. */
  ghost predicate Shows(f: Flow, h: Hashes, ch: ClientHello, transport: Byte) {
    && (ch.serverName != [] ==> f.sni == ch.serverName)
    && (ch.alpn != [] && ch.alpn[0] != [] ==> f.alpn == ch.alpn[0])
    && f.ja4 == Ja4(h.sha, ch, transport) && f.ja3 == Ja3(h.md5, ch)
  }

  lemma ShowsResult(f: Flow, h: Hashes, ch: ClientHello, transport: Byte)
    ensures Shows(WithPrints(f, Some(ResultOf(h, ch, transport)), None), h, ch, transport)
    ensures ResultOf(h, ch, transport).hasEch == ch.hasEch
  {
    hide Ja4, Ja3, Ja3Raw;
  }

  /** How far a flow is: no fingerprint and this held for its client, or the hello's fingerprint and nothing held. */
  ghost predicate Progress(f: Option<Flow>, held: Part, h: Hashes, ch: ClientHello, transport: Byte, done: bool, so: Part) {
    if done then f.Some? && Shows(f.value, h, ch, transport) && held == Part(None, None)
    else (f.Some? ==> f.value.ja4 == []) && held == so
  }

  /** Once the fingerprint is on the flow no packet changes it. */
  lemma DoneStays(k: Kit, f: Flow, g: Flow, p: Packet, before: Part, after: Part, r: Option<ClientResult>,
                  rs: Option<Octets>,
                  ch: ClientHello, transport: Byte)
    requires Shows(f, k.h, ch, transport) && g.ja4 == f.ja4 && g.ja3 == f.ja3 && g.sni == f.sni && g.alpn == f.alpn
    requires Turn(k, g, p, before, after, r)
    ensures r == None && after == before && Shows(WithPrints(g, r, rs), k.h, ch, transport)
  {
    hide Ja3, FeedStep, QuicTurn, Ja4;
    assert Ja4(k.h.sha, ch, transport) != [];
  }

  /** A packet that tells nothing of the hello leaves a flow without a fingerprint as it was. */
  lemma IdleTurn(k: Kit, g: Flow, p: Packet, client: Endpoint, before: Part, after: Part, r: Option<ClientResult>,
                 rs: Option<Octets>)
    requires g.client == client && Turn(k, g, p, before, after, r) && !Tells(k, p, client, false)
    ensures r == None && after == before && WithPrints(g, r, rs).ja4 == g.ja4
  {
    hide FeedStep, FramesOf, Decided, AllInBounds, Primitives.Sound;
  }

  // --- a TCP client's hello ---

  /** An acceptable hello cut into records, and its bytes into what the client says first. */
  ghost predicate HelloSaid(said: seq<Octets>, segments: seq<Octets>, rs: seq<Record>, m: Octets, back: Octets, ch: ClientHello) {
    && IsMessage(m) && Cuts(rs, [], m) && Announces(rs) && Delivers(segments, rs, back) && ParseHandshake(m) == Success(ch)
    && segments <= said
  }

  /** What is held after the first `n` segments. */
  function Awaited(h: Hashes, segments: seq<Octets>, n: nat): Part {
    Part(if n <= |segments| then FeedAll(ClientParser(h), segments[..n]).0 else None, None)
  }

  /** The next segment of a hello: more is awaited, or the flow shows the hello's fingerprint. */
  lemma SegmentTurn(k: Kit, g: Flow, p: Packet, before: Part, after: Part, r: Option<ClientResult>, rs: Option<Octets>,
                    said: seq<Octets>, segments: seq<Octets>, records: seq<Record>, m: Octets, back: Octets, ch: ClientHello, n: nat)
    requires HelloSaid(said, segments, records, m, back, ch) && n < |segments| && p.payload == segments[n]
    requires p.payload != []
    requires p.proto == PROTO_TCP && p.src == g.client && g.ja4 == [] && before == Awaited(k.h, segments, n)
    requires Turn(k, g, p, before, after, r) && (r.Some? ==> rs == None)
    ensures (r.Some? <==> n + 1 == |segments|) && (r.Some? ==> r.value.hasEch == ch.hasEch)
    ensures Progress(Some(WithPrints(g, r, rs)), after, k.h, ch, TRANSPORT_TCP, n + 1 == |segments|, Awaited(k.h, segments, n + 1))
  {
    hide FeedAll, FeedStep, IsMessage, Cuts, Announces, Delivers, ParseHandshake, ResultOf, ClientParser, QuicTurn;
    hide Shows;
    AnySegmentation(k.h, segments, records, m, back, ch);
    FeedAllNext(ClientParser(k.h), segments, n);
    ShowsResult(g, k.h, ch, TRANSPORT_TCP);
    assert segments[..|segments|] == segments;
  }

  /** One packet of the conversation. */
  lemma TcpStep(k: Kit, f: Option<Flow>, g: Flow, p: Packet, client: Endpoint, before: Part, after: Part,
                r: Option<ClientResult>,
                rs: Option<Octets>, said: seq<Octets>, segments: seq<Octets>, records: seq<Record>, m: Octets, back: Octets,
                ch: ClientHello, n: nat)
    requires HelloSaid(said, segments, records, m, back, ch)
    requires p.proto == PROTO_TCP && g.client == client && g.ja4 == (if f.Some? then f.value.ja4 else [])
    requires f.Some? ==> g.ja3 == f.value.ja3 && g.sni == f.value.sni && g.alpn == f.value.alpn
    requires Tells(k, p, client, false) ==> n < |said| && said[n] == p.payload
    requires Progress(f, before, k.h, ch, TRANSPORT_TCP, n >= |segments|, Awaited(k.h, segments, n))
    requires Turn(k, g, p, before, after, r) && (r.Some? ==> rs == None)
    ensures var next := n + if Tells(k, p, client, false) then 1 else 0;
            && (r.Some? <==> n < |segments| <= next) && (r.Some? ==> r.value.hasEch == ch.hasEch)
            && Progress(Some(WithPrints(g, r, rs)), after, k.h, ch, TRANSPORT_TCP, next >= |segments|, Awaited(k.h, segments, next))
  {
    hide FeedAll, FeedStep, IsMessage, Cuts, Announces, Delivers, ParseHandshake, ClientParser, QuicTurn, Shows, Turn;
    hide WithPrints, FramesOf;
    if n >= |segments| {
      DoneStays(k, f.value, g, p, before, after, r, rs, ch, TRANSPORT_TCP);
    } else if Tells(k, p, client, false) {
      assert said[n] == segments[n];
      SegmentTurn(k, g, p, before, after, r, rs, said, segments, records, m, back, ch, n);
    } else {
      IdleTurn(k, g, p, client, before, after, r, rs);
    }
  }

  lemma PacketIn(ps: seq<Packet>, i: nat, key: FlowKey, proto: Byte, client: Endpoint)
    requires i < |ps| && Conversation(ps, key, proto, client)
    ensures var p := ps[i];
            KeyFor(p) == key && p.proto == proto && p.timestamp != UNSET && (p.IsSyn() ==> p.src == client)
  {
    hide KeyFor, Packet.IsSyn;
  }

  /** What the client says next is where it belongs in all it says. */
  lemma SaysNext(k: Kit, ps: seq<Packet>, client: Endpoint, server: bool, i: nat)
    requires i < |ps| && Tells(k, ps[i], client, server)
    ensures var n := |Said(k, ps[..i], client, server)|; n < |Said(k, ps, client, server)| && Said(k, ps, client, server)[n] == ps[i].payload
  {
    hide Tells, Said;
    SaidNext(k, ps, client, server, i);
    SaidSoFar(k, ps, client, server, i + 1);
    var now := Said(k, ps[..i + 1], client, server);
    assert now[|now| - 1] == ps[i].payload;
  }

  /** A pipeline ready for a conversation: its client's flow is live without a fingerprint, or is still to come. */
  ghost predicate Ready(pl: Pipeline, packets: seq<Packet>, key: FlowKey, client: Endpoint)
    reads pl, pl.table, pl.table.order, pl.reasm, pl.sreasm, pl.qreasm, pl.qreasm.repr
  {
    && pl.Valid() && pl.Paced() && pl.Traced() && pl.table.idleTimeout > 0 && packets != []
    && var f := FlowOf(pl.table.contents, key);
       Faces(f, packets[0], client) && (f.Some? ==> f.value.ja4 == []) && PartOf(pl.Holding(), key) == Part(None, None)
  }

  /**
   However an acceptable hello is cut into records, and its bytes into the payloads of a conversation, with
   whatever the server sends in between and whatever both send after: the flow ends with the hello's JA4 and
   JA3 and the names it gave, one more fingerprint is counted, and nothing stays held for its client.
   */
  method Converse(pl: Pipeline, packets: seq<Packet>, key: FlowKey, client: Endpoint, ghost segments: seq<Octets>,
                  ghost records: seq<Record>, ghost m: Octets, ghost back: Octets, ghost ch: ClientHello)
    requires Ready(pl, packets, key, client) && Conversation(packets, key, 6, client)
    requires HelloSaid(Said(pl.Given(), packets, client, false), segments, records, m, back, ch)
    modifies pl, pl.table, pl.table.order, pl.reasm, pl.sreasm, pl.qreasm, pl.qreasm.repr
    ensures pl.Valid() && pl.Paced() && pl.Traced()
    ensures var f := FlowOf(pl.table.contents, key);
            f.Some? && Shows(f.value, pl.Given().h, ch, 116) && PartOf(pl.Holding(), key) == Part(None, None)
    ensures pl.nFingerprints == old(pl.nFingerprints) + 1 && pl.nEch == old(pl.nEch) + if ch.hasEch then 1 else 0
  {
    hide Pipeline.Valid, Pipeline.Paced, Pipeline.Traced, Pipeline.Holding, HelloSaid, KeyFor, Folded, FlowOf;
    hide WithPrints, Turn, PartOf;
    hide Said, Tells, Conversation, Awaited, Progress, Faces, Flow.Observe, Packet.IsSyn, Pipeline.Given;
    ghost var k, order, repr := pl.Given(), pl.table.order, pl.qreasm.repr;
    ghost var said := Said(k, packets, client, false);
    Starts(pl, packets, key, client, segments, records, m, back, ch);
    for i := 0 to |packets|
      invariant pl.Valid() && pl.Paced() && pl.Traced() && fresh(pl.qreasm.repr - repr)
      invariant forall j | 0 <= j < |pl.table.order| :: pl.table.order[j] in order || fresh(pl.table.order[j])
      invariant i < |packets| ==> Faces(FlowOf(pl.table.contents, key), packets[i], client)
      invariant
        var n := |Said(k, packets[..i], client, false)|;
        && Progress(FlowOf(pl.table.contents, key), PartOf(pl.Holding(), key), k.h, ch, TRANSPORT_TCP, n >= |segments|,
                    Awaited(k.h, segments, n))
        && pl.nFingerprints == old(pl.nFingerprints) + (if n >= |segments| then 1 else 0)
        && pl.nEch == old(pl.nEch) + if n >= |segments| && ch.hasEch then 1 else 0
    {
      var p := packets[i];
      ghost var live, before, n := pl.table.contents, PartOf(pl.Holding(), key), |Said(k, packets[..i], client, false)|;
      PacketIn(packets, i, key, PROTO_TCP, client);
      FoldedOf(live, p);
      ghost var r, rs;
      r, rs := TakeTurn(pl, p);
      ghost var f, g := FlowOf(live, key), Folded(live, p);
      FacesOn(f, p, client, r, rs, packets[if i + 1 < |packets| then i + 1 else i]);
      SaidNext(k, packets, client, false, i);
      if Tells(k, p, client, false) {
        SaysNext(k, packets, client, false, i);
      }
      TcpStep(k, f, g, p, client, before, PartOf(pl.Holding(), key), r, rs, said, segments, records, m, back, ch, n);
    }
    assert packets[..|packets|] == packets;
    Ends(FlowOf(pl.table.contents, key), PartOf(pl.Holding(), key), k, said, segments, records, m, back, ch);
  }

  lemma Starts(pl: Pipeline, packets: seq<Packet>, key: FlowKey, client: Endpoint, segments: seq<Octets>,
               records: seq<Record>,
               m: Octets, back: Octets, ch: ClientHello)
    requires Ready(pl, packets, key, client)
    requires HelloSaid(Said(pl.Given(), packets, client, false), segments, records, m, back, ch)
    ensures Said(pl.Given(), packets[..0], client, false) == [] && segments != []
    ensures Progress(FlowOf(pl.table.contents, key), PartOf(pl.Holding(), key), pl.Given().h, ch, TRANSPORT_TCP, false,
                     Awaited(pl.Given().h, segments, 0))
  {
    hide Pipeline.Valid, Pipeline.Paced, Pipeline.Traced, Pipeline.Holding, FlowOf, Faces, PartOf, Shows;
    hide IsMessage, Cuts, Announces, ParseHandshake, ClientParser, FeedStep;
  }

  lemma Ends(f: Option<Flow>, held: Part, k: Kit, said: seq<Octets>, segments: seq<Octets>, records: seq<Record>,
             m: Octets,
             back: Octets, ch: ClientHello)
    requires HelloSaid(said, segments, records, m, back, ch)
    requires Progress(f, held, k.h, ch, TRANSPORT_TCP, |said| >= |segments|, Awaited(k.h, segments, |said|))
    ensures |said| >= |segments| && f.Some? && Shows(f.value, k.h, ch, 116) && held == Part(None, None)
  {
    hide IsMessage, Cuts, Announces, ParseHandshake, ClientParser, FeedAll, Delivers, Shows;
  }

  // --- a QUIC client's hello ---

  /** The message of a profile in datagrams of Initials, the last completing it, is what the client says first. */
  ghost predicate HelloSent(k: Kit, said: seq<Octets>, groups: seq<seq<Spec>>, s: HelloSpec) {
    && k.c.Sound() && Comes(s, groups) && LastCompletes(groups, |BuildHandshake(s)|)
    && |groups| <= |said|
    && forall n | 0 <= n < |groups| :: (forall x | x in groups[n] :: Buildable(x)) && said[n] == Datagram(k.c, groups[n])
  }

  /** What is held after the first `n` datagrams. */
  function Gathered(groups: seq<seq<Spec>>, n: nat): Part {
    Part(None, if 0 < n <= |groups| then Some(Sent(groups[..n])) else None)
  }

  /** What a datagram brings, and what of the message has come with it. */
  lemma DatagramTells(k: Kit, said: seq<Octets>, groups: seq<seq<Spec>>, s: HelloSpec, n: nat)
    requires HelloSent(k, said, groups, s) && n < |groups|
    ensures var fs := FramesOf(k.c, said[n]);
            && fs != [] && AllInBounds(fs)
            && (if n == 0 then [] else Sent(groups[..n])) + fs == Sent(groups[..n + 1])
    ensures Comes(s, groups[..n + 1])
    ensures AllWithin(Sent(groups[..n + 1]), |BuildHandshake(s)|) <==> n + 1 == |groups|
  {
    hide BuildHandshake, AllCarry, FramesOf, Datagram, AllInBounds, Sent, AllWithin, Primitives.Sound, Comes, Buildable;
    GroupOf(s, groups, n);
    DatagramBrings(k.c, groups[n], BuildHandshake(s));
    SentNext(groups, n);
    SentNone(groups);
    ComesSoFar(s, groups, n + 1);
  }

  /** The next datagram of a hello: more is gathered, or the flow shows the profile's fingerprint. */
  lemma DatagramTurn(k: Kit, g: Flow, p: Packet, before: Part, after: Part, r: Option<ClientResult>, rs: Option<Octets>,
                     said: seq<Octets>, groups: seq<seq<Spec>>, s: HelloSpec, n: nat)
    requires HelloSent(k, said, groups, s) && n < |groups| && p.payload == said[n] && p.payload != []
    requires p.proto == PROTO_UDP && p.src == g.client && g.ja4 == [] && before == Gathered(groups, n)
    requires Turn(k, g, p, before, after, r) && (r.Some? ==> rs == None)
    ensures (r.Some? <==> n + 1 == |groups|) && (r.Some? ==> r.value.hasEch == Profile(s).hasEch)
    ensures Progress(Some(WithPrints(g, r, rs)), after, k.h, Profile(s), TRANSPORT_QUIC, n + 1 == |groups|, Gathered(groups, n + 1))
  {
    hide BuildHandshake, FramesOf, AllInBounds, Sent, AllWithin, Primitives.Sound, Comes, Settled, HelloSent, Shows;
    hide ResultOf, Profile, FeedStep;
    DatagramTells(k, said, groups, s, n);
    var t: Trace :| t.frames == Sent(groups[..n + 1]) && Settled(k.h, t, after.fragments.Some?, r);
    Completes(k.h, s, groups, n, t, after.fragments.Some?, r);
    ShowsResult(g, k.h, Profile(s), TRANSPORT_QUIC);
  }

  lemma Completes(h: Hashes, s: HelloSpec, groups: seq<seq<Spec>>, n: nat, t: Trace, waiting: bool,
                  r: Option<ClientResult>)
    requires n < |groups| && Comes(s, groups[..n + 1]) && Settled(h, t, waiting, r) && t.frames == Sent(groups[..n + 1])
    requires AllWithin(Sent(groups[..n + 1]), |BuildHandshake(s)|) <==> n + 1 == |groups|
    ensures waiting <==> n + 1 < |groups|
    ensures r == if waiting then None else Some(ResultOf(h, Profile(s), TRANSPORT_QUIC))
  {
    hide BuildHandshake, Sent, AllWithin, Settled, ResultOf, Profile, AllCarry, SpecFits;
    HelloComesThrough(h, s, groups[..n + 1], t, waiting, r);
  }

  lemma QuicStep(k: Kit, f: Option<Flow>, g: Flow, p: Packet, client: Endpoint, before: Part, after: Part,
                 r: Option<ClientResult>,
                 rs: Option<Octets>, said: seq<Octets>, groups: seq<seq<Spec>>, s: HelloSpec, n: nat)
    requires p.proto == PROTO_UDP && g.client == client && g.ja4 == (if f.Some? then f.value.ja4 else [])
    requires f.Some? ==> g.ja3 == f.value.ja3 && g.sni == f.value.sni && g.alpn == f.value.alpn
    requires Tells(k, p, client, false) ==> n < |said| && said[n] == p.payload
    requires Progress(f, before, k.h, Profile(s), TRANSPORT_QUIC, n >= |groups|, Gathered(groups, n))
    requires r.Some? ==> rs == None
    requires Turn(k, g, p, before, after, r)
    requires HelloSent(k, said, groups, s)
    ensures var next := n + if Tells(k, p, client, false) then 1 else 0;
            && (r.Some? <==> n < |groups| <= next) && (r.Some? ==> r.value.hasEch == Profile(s).hasEch)
            && Progress(Some(WithPrints(g, r, rs)), after, k.h, Profile(s), TRANSPORT_QUIC, next >= |groups|, Gathered(groups, next))
  {
    hide HelloSent, QuicTurn, Shows, Turn, WithPrints, FramesOf, Profile, Sent, FeedStep, Primitives.Sound;
    if n >= |groups| {
      DoneStays(k, f.value, g, p, before, after, r, rs, Profile(s), TRANSPORT_QUIC);
    } else if Tells(k, p, client, false) {
      DatagramTurn(k, g, p, before, after, r, rs, said, groups, s, n);
    } else {
      IdleTurn(k, g, p, client, before, after, r, rs);
    }
  }

  /**
   However the hello of a profile is cut into fragments, and these spread over Initials and datagrams, in any
   order, overlapping or repeated, with whatever else both sides send before, between and after: the flow ends
   with the profile's JA4 and JA3 and its names, one more fingerprint is counted, and nothing stays held.
   */
  method ConverseQuic(pl: Pipeline, packets: seq<Packet>, key: FlowKey, client: Endpoint, ghost groups: seq<seq<Spec>>,
                      ghost s: HelloSpec)
    requires Ready(pl, packets, key, client) && Conversation(packets, key, 17, client)
    requires HelloSent(pl.Given(), Said(pl.Given(), packets, client, false), groups, s)
    modifies pl, pl.table, pl.table.order, pl.reasm, pl.sreasm, pl.qreasm, pl.qreasm.repr
    ensures pl.Valid() && pl.Paced() && pl.Traced()
    ensures var f := FlowOf(pl.table.contents, key);
            f.Some? && Shows(f.value, pl.Given().h, Profile(s), 113) && PartOf(pl.Holding(), key) == Part(None, None)
    ensures pl.nFingerprints == old(pl.nFingerprints) + 1 && pl.nEch == old(pl.nEch) + if Profile(s).hasEch then 1 else 0
  {
    hide Pipeline.Valid, Pipeline.Paced, Pipeline.Traced, Pipeline.Holding, HelloSent, KeyFor, Folded, FlowOf;
    hide WithPrints, Turn, PartOf;
    hide Said, Tells, Conversation, Gathered, Progress, Faces, Flow.Observe, Packet.IsSyn, Pipeline.Given, Profile;
    ghost var k, order, repr := pl.Given(), pl.table.order, pl.qreasm.repr;
    ghost var said := Said(k, packets, client, false);
    QuicStarts(pl, packets, key, client, groups, s);
    for i := 0 to |packets|
      invariant pl.Valid() && pl.Paced() && pl.Traced() && fresh(pl.qreasm.repr - repr)
      invariant forall j | 0 <= j < |pl.table.order| :: pl.table.order[j] in order || fresh(pl.table.order[j])
      invariant i < |packets| ==> Faces(FlowOf(pl.table.contents, key), packets[i], client)
      invariant
        var n := |Said(k, packets[..i], client, false)|;
        && Progress(FlowOf(pl.table.contents, key), PartOf(pl.Holding(), key), k.h, Profile(s), TRANSPORT_QUIC, n >= |groups|,
                    Gathered(groups, n))
        && pl.nFingerprints == old(pl.nFingerprints) + (if n >= |groups| then 1 else 0)
        && pl.nEch == old(pl.nEch) + if n >= |groups| && Profile(s).hasEch then 1 else 0
    {
      var p := packets[i];
      ghost var live, before, n := pl.table.contents, PartOf(pl.Holding(), key), |Said(k, packets[..i], client, false)|;
      PacketIn(packets, i, key, PROTO_UDP, client);
      FoldedOf(live, p);
      ghost var r, rs;
      r, rs := TakeTurn(pl, p);
      ghost var f, g := FlowOf(live, key), Folded(live, p);
      FacesOn(f, p, client, r, rs, packets[if i + 1 < |packets| then i + 1 else i]);
      SaidNext(k, packets, client, false, i);
      if Tells(k, p, client, false) {
        SaysNext(k, packets, client, false, i);
      }
      QuicStep(k, f, g, p, client, before, PartOf(pl.Holding(), key), r, rs, said, groups, s, n);
    }
    assert packets[..|packets|] == packets;
    QuicEnds(FlowOf(pl.table.contents, key), PartOf(pl.Holding(), key), k, said, groups, s);
  }

  lemma QuicStarts(pl: Pipeline, packets: seq<Packet>, key: FlowKey, client: Endpoint, groups: seq<seq<Spec>>,
                   s: HelloSpec)
    requires Ready(pl, packets, key, client)
    requires HelloSent(pl.Given(), Said(pl.Given(), packets, client, false), groups, s)
    ensures Said(pl.Given(), packets[..0], client, false) == [] && groups != []
    ensures Progress(FlowOf(pl.table.contents, key), PartOf(pl.Holding(), key), pl.Given().h, Profile(s), TRANSPORT_QUIC, false,
                     Gathered(groups, 0))
  {
    hide Pipeline.Valid, Pipeline.Paced, Pipeline.Traced, Pipeline.Holding, FlowOf, Faces, PartOf, Shows;
    hide Primitives.Sound, Comes, BuildHandshake, AllWithin, Datagram, Buildable, Profile, Sent;
  }

  lemma QuicEnds(f: Option<Flow>, held: Part, k: Kit, said: seq<Octets>, groups: seq<seq<Spec>>, s: HelloSpec)
    requires HelloSent(k, said, groups, s)
    requires Progress(f, held, k.h, Profile(s), TRANSPORT_QUIC, |said| >= |groups|, Gathered(groups, |said|))
    ensures |said| >= |groups| && f.Some? && Shows(f.value, k.h, Profile(s), 113) && held == Part(None, None)
  {
    hide Primitives.Sound, Comes, BuildHandshake, AllWithin, Datagram, Buildable, Profile, Sent, Shows;
  }

  // --- a server's hello ---

  /** What the server says first completes a hello its parser makes `x` of, and no less does. */
  ghost predicate ReplySaid(k: Kit, said: seq<Octets>, segments: seq<Octets>, x: Octets) {
    && segments != [] && segments <= said && x != [] && FeedAll(k.serverParse, segments) == (None, Some(x))
    && forall i | 0 < i < |segments| :: FeedAll(k.serverParse, segments[..i]).1 == None
  }

  /** How far a flow is on the server's side. */
  ghost predicate Replied(f: Option<Flow>, held: Option<Octets>, k: Kit, segments: seq<Octets>, x: Octets, n: nat) {
    if n >= |segments| then f.Some? && f.value.ja4s == x && held == None
    else (f.Some? ==> f.value.ja4s == []) && held == FeedAll(k.serverParse, segments[..n]).0
  }

  lemma ReplyStep(k: Kit, f: Option<Flow>, g: Flow, p: Packet, client: Endpoint, before: Option<Octets>,
                  after: Option<Octets>,
                  r: Option<ClientResult>, rs: Option<Octets>, said: seq<Octets>, segments: seq<Octets>, x: Octets, n: nat)
    requires ReplySaid(k, said, segments, x) && Replied(f, before, k, segments, x, n)
    requires p.proto == PROTO_TCP && g.client == client && g.ja4s == (if f.Some? then f.value.ja4s else [])
    requires Tells(k, p, client, true) ==> n < |said| && said[n] == p.payload
    requires Reply(k, g, p, before, after, rs) && (r.Some? ==> rs == None)
    ensures var next := n + if Tells(k, p, client, true) then 1 else 0;
            && (rs.Some? <==> n < |segments| <= next)
            && Replied(Some(WithPrints(g, r, rs)), after, k, segments, x, next)
  {
    hide FeedAll, FeedStep;
    if n < |segments| && Tells(k, p, client, true) {
      FeedAllNext(k.serverParse, segments, n);
      assert segments[..|segments|] == segments;
    }
  }

  /** The server's side of a conversation: its flow ends with what the parser makes of the server's hello. */
  method ConverseServer(pl: Pipeline, packets: seq<Packet>, key: FlowKey, client: Endpoint,
                        ghost segments: seq<Octets>, ghost x: Octets)
    requires ReadyForReply(pl, packets, key, client) && Conversation(packets, key, 6, client)
    requires ReplySaid(pl.Given(), Said(pl.Given(), packets, client, true), segments, x)
    modifies pl, pl.table, pl.table.order, pl.reasm, pl.sreasm, pl.qreasm, pl.qreasm.repr
    ensures pl.Valid() && pl.Paced() && pl.Traced()
    ensures var f := FlowOf(pl.table.contents, key);
            f.Some? && f.value.ja4s == x && Lookup(pl.Holding().server, key) == None
    ensures pl.nServerPrints == old(pl.nServerPrints) + 1
  {
    hide Pipeline.Valid, Pipeline.Paced, Pipeline.Traced, Pipeline.Holding, ReplySaid, KeyFor, Folded, FlowOf;
    hide WithPrints, Turn, Reply;
    hide Said, Tells, Conversation, Replied, Faces, Flow.Observe, Packet.IsSyn, Pipeline.Given, PartOf, Lookup;
    ghost var k, order, repr := pl.Given(), pl.table.order, pl.qreasm.repr;
    ghost var said := Said(k, packets, client, true);
    ReplyStarts(pl, packets, key, client, segments, x);
    for i := 0 to |packets|
      invariant pl.Valid() && pl.Paced() && pl.Traced() && fresh(pl.qreasm.repr - repr)
      invariant forall j | 0 <= j < |pl.table.order| :: pl.table.order[j] in order || fresh(pl.table.order[j])
      invariant i < |packets| ==> Faces(FlowOf(pl.table.contents, key), packets[i], client)
      invariant
        var n := |Said(k, packets[..i], client, true)|;
        && Replied(FlowOf(pl.table.contents, key), Lookup(pl.Holding().server, key), k, segments, x, n)
        && pl.nServerPrints == old(pl.nServerPrints) + if n >= |segments| then 1 else 0
    {
      var p := packets[i];
      ghost var live, before, n := pl.table.contents, Lookup(pl.Holding().server, key), |Said(k, packets[..i], client, true)|;
      PacketIn(packets, i, key, PROTO_TCP, client);
      FoldedOf(live, p);
      ghost var r, rs;
      r, rs := TakeTurn(pl, p);
      ghost var f, g := FlowOf(live, key), Folded(live, p);
      FacesOn(f, p, client, r, rs, packets[if i + 1 < |packets| then i + 1 else i]);
      SaidNext(k, packets, client, true, i);
      if Tells(k, p, client, true) {
        SaysNext(k, packets, client, true, i);
      }
      ReplyStep(k, f, g, p, client, before, Lookup(pl.Holding().server, key), r, rs, said, segments, x, n);
    }
    assert packets[..|packets|] == packets;
    ReplyEnds(FlowOf(pl.table.contents, key), Lookup(pl.Holding().server, key), k, said, segments, x);
  }

  /** A pipeline ready for the server's side of a conversation. */
  ghost predicate ReadyForReply(pl: Pipeline, packets: seq<Packet>, key: FlowKey, client: Endpoint)
    reads pl, pl.table, pl.table.order, pl.reasm, pl.sreasm, pl.qreasm, pl.qreasm.repr
  {
    && pl.Valid() && pl.Paced() && pl.Traced() && pl.table.idleTimeout > 0 && packets != []
    && var f := FlowOf(pl.table.contents, key);
       Faces(f, packets[0], client) && (f.Some? ==> f.value.ja4s == []) && Lookup(pl.Holding().server, key) == None
  }

  lemma ReplyStarts(pl: Pipeline, packets: seq<Packet>, key: FlowKey, client: Endpoint, segments: seq<Octets>,
                    x: Octets)
    requires ReadyForReply(pl, packets, key, client)
    requires ReplySaid(pl.Given(), Said(pl.Given(), packets, client, true), segments, x)
    ensures Said(pl.Given(), packets[..0], client, true) == [] && segments != []
    ensures Replied(FlowOf(pl.table.contents, key), Lookup(pl.Holding().server, key), pl.Given(), segments, x, 0)
  {
    hide Pipeline.Valid, Pipeline.Paced, Pipeline.Traced, Pipeline.Holding, FlowOf, Faces, Lookup, FeedStep;
  }

  lemma ReplyEnds(f: Option<Flow>, held: Option<Octets>, k: Kit, said: seq<Octets>, segments: seq<Octets>, x: Octets)
    requires ReplySaid(k, said, segments, x) && Replied(f, held, k, segments, x, |said|)
    ensures |said| >= |segments| && f.Some? && f.value.ja4s == x && held == None
  {
    hide FeedAll;
  }
}
