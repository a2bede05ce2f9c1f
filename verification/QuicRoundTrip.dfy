/**
 From a hello to its fingerprint over QUIC: the message cut into fragments, the fragments built into
 Initials, the Initials into datagrams, in any order, and back.
 */
module QuicRoundTrip {
  import opened Bytes
  import opened Flows
  import opened Keys
  import opened Varints
  import opened Frames
  import opened Initial
  import opened CryptoStreams
  import opened ClientHellos
  import opened HelloBuild
  import opened Fingerprints
  import opened Records
  import opened Reassembly
  import opened QuicReassembly

  /** The packet can be built and carries a stretch of the message that the sensor's bound admits. */
  ghost predicate Carries(s: Spec, m: Octets) {
    Buildable(s) && FragmentOf(CryptoFrame(s.offset, s.crypto), m) && s.offset + |s.crypto| <= MAX_CRYPTO_BYTES
  }

  ghost predicate AllCarry(specs: seq<Spec>, m: Octets) { specs != [] && forall s | s in specs :: Carries(s, m) }

  /** The fragments of all packets of all datagrams, in the order sent. */
  function Sent(groups: seq<seq<Spec>>): seq<CryptoFrame> {
    if groups == [] then [] else Sent(groups[..|groups| - 1]) + AcceptedFrames(groups[|groups| - 1])
  }

  lemma {:induction false} AcceptedCarry(specs: seq<Spec>, m: Octets)
    requires forall s | s in specs :: Carries(s, m)
    ensures |AcceptedFrames(specs)| == |specs| && AllInBounds(AcceptedFrames(specs))
    ensures forall f | f in AcceptedFrames(specs) :: FragmentOf(f, m)
  {
    if specs != [] {
      assert specs[0] in specs && forall s | s in specs[1..] :: s in specs;
      AcceptedCarry(specs[1..], m);
    }
  }

  lemma {:induction false} SentCarries(groups: seq<seq<Spec>>, m: Octets)
    requires forall g | g in groups :: AllCarry(g, m)
    ensures forall f | f in Sent(groups) :: FragmentOf(f, m)
    decreases |groups|
  {
    hide FragmentOf, AcceptedFrames;
    if groups != [] {
      var last := groups[|groups| - 1];
      assert last in groups && AllCarry(last, m);
      SentCarries(groups[..|groups| - 1], m);
      AcceptedCarry(last, m);
    }
  }

  /** A datagram of such packets brings exactly their fragments. */
  lemma DatagramBrings(c: Primitives, specs: seq<Spec>, m: Octets)
    requires c.Sound() && AllCarry(specs, m)
    ensures forall s | s in specs :: Buildable(s)
    ensures var fs := FramesOf(c, Datagram(c, specs)); fs == AcceptedFrames(specs) && fs != [] && AllInBounds(fs)
  {
    assert specs[0] in specs && Carries(specs[0], m);
    forall s | s in specs ensures Buildable(s) && s.offset < VARINT_LIMIT {
      assert Carries(s, m);
    }
    AcceptedCarry(specs, m);
    hide Buildable, ParseInitial, Datagram, AcceptedFrames, AllInBounds, Primitives.Sound;
    DatagramRoundTrip(c, specs);
  }

  /** The handshake message of a profile announces its own length. */
  lemma BuiltLength(s: HelloSpec)
    requires SpecFits(s)
    ensures var m := BuildHandshake(s); |m| >= 4 && MessageLength(m) == |m|
  {
    hide BuildHandshake, SpecFits;
    BuiltStatesLength(s);
  }

  /**
   However the handshake message of a profile is cut into fragments, and these are spread over Initials
   and datagrams, in any order, overlapping or repeated, the flow waits exactly until every byte has
   come, and then yields the fingerprint of the profile; a message over the bound it waits for in vain.
   */
  lemma HelloComesThrough(h: Hashes, s: HelloSpec, groups: seq<seq<Spec>>, t: Trace, waiting: bool,
                          r: Option<ClientResult>)
    requires SpecFits(s) && forall g | g in groups :: AllCarry(g, BuildHandshake(s))
    requires Settled(h, t, waiting, r) && t.frames == Sent(groups)
    ensures waiting <==> !(|BuildHandshake(s)| <= MAX_CRYPTO_BYTES && AllWithin(Sent(groups), |BuildHandshake(s)|))
    ensures r == if waiting then None else Some(ResultOf(h, Profile(s), TRANSPORT_QUIC))
  {
    hide BuildHandshake, SpecFits, AllCarry, Settled, Sent, AllWithin, ParseHandshake, Profile, ResultOf, MessageLength;
    var m := BuildHandshake(s);
    BuiltLength(s);
    SentCarries(groups, m);
    SettledExactlyWhenCovered(h, t, waiting, r, m);
    ProfileRoundTrip(s, []);
    assert m + [] == m && m[..|m|] == m;
  }

  /** The datagrams before the `n`th. */
  lemma SentNext(groups: seq<seq<Spec>>, n: nat)
    requires n < |groups|
    ensures Sent(groups[..n + 1]) == Sent(groups[..n]) + AcceptedFrames(groups[n])
  {
    hide AcceptedFrames;
    assert groups[..n + 1][..n] == groups[..n];
  }

  /** Only with the last datagram has every byte of the message come. */
  ghost predicate LastCompletes(groups: seq<seq<Spec>>, n: nat) {
    && groups != [] && AllWithin(Sent(groups), n)
    && forall k | 0 < k < |groups| :: !AllWithin(Sent(groups[..k]), n)
  }

  /** The flow is fresh, or waits with the fragments of the datagrams so far. */
  ghost predicate Midway(q: QuicReassembler, key: FlowKey, groups: seq<seq<Spec>>, n: nat)
    requires n <= |groups|
    reads q
  {
    if n == 0 then key !in q.pending
    else key in q.pending && key in q.traces && q.traces[key].frames == Sent(groups[..n])
  }

  /** One datagram fed to a flow that has had those before it. */
  method FeedNext(q: QuicReassembler, key: FlowKey, s: HelloSpec, groups: seq<seq<Spec>>, n: nat)
    returns (r: Option<ClientResult>)
    requires q.Valid() && n < |groups| && Comes(s, groups)
    requires Midway(q, key, groups, n)
    modifies q`pending, q`dropped, q`traces, q`repr, q.repr
    ensures q.Valid() && fresh(q.repr - old(q.repr))
    ensures key in q.pending <==> !AllWithin(Sent(groups[..n + 1]), |BuildHandshake(s)|)
    ensures r == if key in q.pending then None else Some(ResultOf(q.h, Profile(s), TRANSPORT_QUIC))
    ensures key in q.pending ==> Midway(q, key, groups, n + 1)
  {
    hide QuicReassembler.Valid, BuildHandshake, Profile, ResultOf, Settled, Sent, AllWithin, AllCarry, FramesOf;
    hide Datagram;
    hide AllInBounds, Untouched;
    SoundOf(q);
    GroupOf(s, groups, n);
    DatagramBrings(q.c, groups[n], BuildHandshake(s));
    SentNext(groups, n);
    SentNone(groups);
    ghost var victim;
    r, victim := q.Feed(key, Datagram(q.c, groups[n]));
    ComesSoFar(s, groups, n + 1);
    HelloComesThrough(q.h, s, groups[..n + 1], q.traces[key], key in q.pending, r);
  }

  /** The message of the profile, in datagrams of Initials that carry it. */
  ghost predicate Comes(s: HelloSpec, groups: seq<seq<Spec>>) {
    SpecFits(s) && |BuildHandshake(s)| <= MAX_CRYPTO_BYTES && forall g | g in groups :: AllCarry(g, BuildHandshake(s))
  }

  lemma SoundOf(q: QuicReassembler)
    requires q.Valid()
    ensures q.c.Sound() && forall k | k in q.pending :: k in q.traces
  {
  }

  lemma GroupOf(s: HelloSpec, groups: seq<seq<Spec>>, n: nat)
    requires Comes(s, groups) && n < |groups|
    ensures AllCarry(groups[n], BuildHandshake(s))
  {
    hide AllCarry, BuildHandshake;
    assert groups[n] in groups;
  }

  lemma ComesSoFar(s: HelloSpec, groups: seq<seq<Spec>>, n: nat)
    requires Comes(s, groups) && n <= |groups|
    ensures Comes(s, groups[..n])
  {
    hide AllCarry, BuildHandshake, SpecFits;
    assert forall g | g in groups[..n] :: g in groups;
  }

  lemma SentNone(groups: seq<seq<Spec>>)
    ensures Sent(groups[..0]) == [] && groups[..|groups|] == groups
  {
  }

  /**
   A fresh flow fed these datagrams yields nothing until the one that completes the message, and on it
   the fingerprint of the profile, leaving nothing pending.
   */
  method Deliver(q: QuicReassembler, key: FlowKey, s: HelloSpec, groups: seq<seq<Spec>>)
    returns (rs: seq<Option<ClientResult>>)
    requires q.Valid() && key !in q.pending && Comes(s, groups) && LastCompletes(groups, |BuildHandshake(s)|)
    modifies q`pending, q`dropped, q`traces, q`repr, q.repr
    ensures q.Valid() && key !in q.pending && |rs| == |groups|
    ensures forall k | 0 <= k < |rs| - 1 :: rs[k] == None
    ensures rs[|rs| - 1] == Some(ResultOf(q.h, Profile(s), TRANSPORT_QUIC))
  {
    hide QuicReassembler.Valid, BuildHandshake, Profile, ResultOf, Sent, AllWithin, Comes;
    rs := [];
    SentNone(groups);
    for n := 0 to |groups|
      invariant q.Valid() && fresh(q.repr - old(q.repr)) && |rs| == n
      invariant forall k | 0 <= k < n && k < |groups| - 1 :: rs[k] == None
      invariant n == |groups| ==> key !in q.pending && rs[n - 1] == Some(ResultOf(q.h, Profile(s), TRANSPORT_QUIC))
      invariant n < |groups| ==> Midway(q, key, groups, n)
    {
      var r := FeedNext(q, key, s, groups, n);
      rs := rs + [r];
    }
  }
}
