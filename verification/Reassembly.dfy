/**
 Buffering what a TCP flow sends first until it makes a hello. The client and server
 reassemblers mirror each other, so one class serves both, over the verdict of its parser.
 */
module Reassembly {
  import opened Bytes
  import opened Collections
  import opened Flows
  import opened ClientHellos
  import opened Fingerprints
  import opened Records

  /** What a parser makes of the bytes so far. */
  datatype Verdict<R> = More | Reject | Accept(result: R)

  /** One feed, seen from the flow that is fed: what is pending for it after, and what it yields. */
  function FeedStep<R>(parse: Octets -> Verdict<R>, before: Option<Octets>, payload: Octets): (r: (Option<Octets>, Option<R>)) {
    if payload == [] then (before, None)
    else if before.None? && (payload[0] != RECORD_HANDSHAKE || (|payload| >= 2 && payload[1] != 0x03)) then (None, None)
    else
      Judged(parse, (if before.Some? then before.value else []) + payload)
  }

  /** What becomes of all the bytes a flow has sent. */
  function Judged<R>(parse: Octets -> Verdict<R>, buf: Octets): (r: (Option<Octets>, Option<R>)) {
    if |buf| > MAX_CLIENT_HELLO then (None, None)
    else
      match parse(buf)
      case More => (Some(buf), None)
      case Reject => (None, None)
      case Accept(result) => (None, Some(result))
  }

  function Lookup<V>(m: map<FlowKey, V>, key: FlowKey): Option<V> {
    if key in m then Some(m[key]) else None
  }

  /** The bytes look like the start of a handshake, so a new flow takes a place in the map. */
  predicate Opens(payload: Octets) {
    payload != [] && payload[0] == RECORD_HANDSHAKE && (|payload| >= 2 ==> payload[1] == 0x03)
  }

  /** No flow but `key` is touched, except that `victim` is gone. */
  ghost predicate Untouched<V>(key: FlowKey, victim: Option<FlowKey>, before: map<FlowKey, V>, after: map<FlowKey, V>) {
    forall k | k != key :: Lookup(after, k) == if victim == Some(k) then None else Lookup(before, k)
  }

  lemma UntouchedStarts<V>(key: FlowKey, m: map<FlowKey, V>)
    ensures Untouched(key, None, m, m)
    ensures forall v | v != key :: Untouched(key, Some(v), m, m - {v})
  {
  }

  lemma UntouchedFed<V>(key: FlowKey, victim: Option<FlowKey>, before: map<FlowKey, V>, after: map<FlowKey, V>, v: V)
    requires Untouched(key, victim, before, after)
    ensures Untouched(key, victim, before, after[key := v]) && Untouched(key, victim, before, after - {key})
  {
  }

  lemma UntouchedThen<V>(key: FlowKey, victim: Option<FlowKey>, a: map<FlowKey, V>, b: map<FlowKey, V>,
                         c: map<FlowKey, V>)
    requires Untouched(key, victim, a, b) && Untouched(key, None, b, c)
    ensures Untouched(key, victim, a, c)
  {
  }

  /** What starts a flow's bytes must look like a TLS handshake, and what is held never passes the bound. */
  lemma OthersIgnored<R>(parse: Octets -> Verdict<R>, before: Option<Octets>, payload: Octets)
    ensures payload == [] ==> FeedStep(parse, before, payload) == (before, None)
    ensures payload != [] && (payload[0] != 22 || (|payload| >= 2 && payload[1] != 3)) ==>
              FeedStep(parse, None, payload) == (None, None)
    ensures before.Some? && payload != [] && |before.value + payload| > 16384 ==>
              FeedStep(parse, before, payload) == (None, None)
  {
  }

  class Reassembler<R> {
    var pending: map<FlowKey, Octets>
    var dropped: nat
    const maxPending: nat
    const parse: Octets -> Verdict<R>

    ghost predicate Valid()
      reads this
    {
      maxPending > 0 && |pending| <= maxPending
    }

    constructor (maxPending: nat, parse: Octets -> Verdict<R>)
      requires maxPending > 0
      ensures Valid() && pending == map[] && this.maxPending == maxPending && this.parse == parse && dropped == 0
    {
      pending := map[];
      dropped := 0;
      this.maxPending := maxPending;
      this.parse := parse;
    }

    /** Drop whichever entry the map offers first. */
    method EvictOne() returns (victim: FlowKey)
      requires pending != map[]
      modifies this`pending, this`dropped
      ensures victim in old(pending) && pending == old(pending) - {victim} && |pending| == |old(pending)| - 1
      ensures dropped == old(dropped) + 1
    {
      assert pending.Keys != {};
      victim :| victim in pending.Keys;
      Shrinks(pending, victim);
      pending := pending - {victim};
      dropped := dropped + 1;
    }

    /** A place for a flow that has none pending. */
    method MakeRoom(key: FlowKey) returns (ghost victim: Option<FlowKey>)
      requires Valid() && key !in pending
      modifies this`pending, this`dropped
      ensures Valid() && |pending| < maxPending && key !in pending && Untouched(key, victim, old(pending), pending)
      ensures victim.Some? <==> |old(pending)| == maxPending
      ensures victim.Some? ==> victim.value in old(pending)
      ensures dropped == old(dropped) + if victim.Some? then 1 else 0
    {
      hide Untouched;
      UntouchedStarts(key, pending);
      victim := None;
      if |pending| >= maxPending {
        var v := EvictOne();
        victim := Some(v);
      }
    }

    /** Parse what a flow has sent so far, and keep it only if there is more to come. */
    method Judge(key: FlowKey, buf: Octets, ghost victim: Option<FlowKey>, ghost before: map<FlowKey, Octets>)
      returns (r: Option<R>)
      requires Valid() && (key in pending || |pending| < maxPending) && Untouched(key, victim, before, pending)
      modifies this`pending
      ensures Valid() && Untouched(key, victim, before, pending)
      ensures (Lookup(pending, key), r) == Judged(parse, buf)
    {
      hide Untouched;
      UntouchedFed(key, victim, before, pending, buf);
      if |buf| > MAX_CLIENT_HELLO {
        Forget(key);
        return None;
      }
      match parse(buf) {
        case More =>
          Grows(pending, key, buf);
          pending := pending[key := buf];
          return None;
        case Reject =>
          Forget(key);
          return None;
        case Accept(result) =>
          Forget(key);
          return Some(result);
      }
    }

    /**
     Feed client bytes of a flow. The flow fed follows `FeedStep`; every other flow keeps its
     bytes, except for one dropped to make room when the map is full and a new flow opens.
     */
    method Feed(key: FlowKey, payload: Octets) returns (r: Option<R>, ghost victim: Option<FlowKey>)
      requires Valid()
      modifies this
      ensures Valid()
      ensures (Lookup(pending, key), r) == FeedStep(parse, Lookup(old(pending), key), payload)
      ensures Untouched(key, victim, old(pending), pending)
      ensures victim.Some? ==> victim.value in old(pending) && key !in old(pending) && |old(pending)| == maxPending && Opens(payload)
      ensures dropped == old(dropped) + if victim.Some? then 1 else 0
    {
      hide Untouched, Judged;
      ghost var before := pending;
      UntouchedStarts(key, before);
      victim := None;
      if |payload| == 0 {
        return None, None;
      }
      var buf := [];
      if key in pending {
        buf := pending[key];
      } else {
        if payload[0] != RECORD_HANDSHAKE {
          return None, None;
        }
        if |payload| >= 2 && payload[1] != 0x03 {
          return None, None;
        }
        victim := MakeRoom(key);
      }
      r := Judge(key, buf + payload, victim, before);
    }

    /** Remove a flow's bytes, if it has any pending. */
    method Forget(key: FlowKey)
      requires Valid()
      modifies this`pending
      ensures Valid() && pending == old(pending) - {key}
    {
      if key in pending {
        Shrinks(pending, key);
      }
      pending := pending - {key};
    }
  }

  // --- the client's parser and its result ---

  /** A completed client fingerprint. */
  datatype ClientResult = ClientResult(ja4: Octets, ja3: Octets, ja3Raw: Octets, serverName: Octets, alpn: Octets, hasEch: bool)

  datatype Hashes = Hashes(sha: Digest, md5: Octets -> Octets)

  function ResultOf(h: Hashes, ch: ClientHello, transport: Byte): (r: ClientResult)
    ensures r.ja4 != []
  {
    ClientResult(Ja4(h.sha, ch, transport), Ja3(h.md5, ch), Ja3Raw(ch), ch.serverName,
                 if ch.alpn != [] then ch.alpn[0] else [], ch.hasEch)
  }

  function ClientVerdict(h: Hashes, buf: Octets): Verdict<ClientResult> {
    match ParseClientHello(buf)
    case Failure(e) => if e == Incomplete then More else Reject
    case Success(ch) => Accept(ResultOf(h, ch, TRANSPORT_TCP))
  }

  /** The client reassembler's parser. */
  function ClientParser(h: Hashes): Octets -> Verdict<ClientResult> { b => ClientVerdict(h, b) }

  // --- any segmentation gives the same result ---

  function Concat(segments: seq<Octets>): Octets {
    if segments == [] then [] else Concat(segments[..|segments| - 1]) + segments[|segments| - 1]
  }

  /** What is pending for a flow after a run of its segments, and what the last one yielded. */
  function FeedAll<R>(parse: Octets -> Verdict<R>, segments: seq<Octets>): (Option<Octets>, Option<R>) {
    if segments == [] then (None, None)
    else FeedStep(parse, FeedAll(parse, segments[..|segments| - 1]).0, segments[|segments| - 1])
  }

  lemma {:induction false} ConcatGrows(segments: seq<Octets>)
    requires forall s | s in segments :: s != []
    ensures segments != [] ==> |Concat(segments)| > 0 && |Concat(segments)| >= |segments|
    ensures segments != [] ==> Concat(segments[..|segments| - 1]) <= Concat(segments)
  {
    if segments != [] {
      var earlier := segments[..|segments| - 1];
      assert segments[|segments| - 1] in segments;
      assert forall s | s in earlier :: s in segments;
      ConcatGrows(earlier);
    }
  }

  /** A flow opens on any non-empty prefix of the records. */
  lemma PrefixOpens(rs: seq<Record>, m: Octets, part: Octets, back: Octets)
    requires Cuts(rs, [], m) && Announces(rs)
    requires part != [] && part <= RecordsBytes(rs) + back
    ensures Opens(part)
  {
    FirstBytes(rs, m, back);
    hide RecordsBytes, Cuts, Announces;
    var s := RecordsBytes(rs) + back;
    assert part[0] == s[0];
    assert |part| >= 2 ==> part[1] == s[1];
  }

  /** A feed that the map accepts follows the parse of everything the flow has sent. */
  lemma StepParses(h: Hashes, before: Option<Octets>, payload: Octets, whole: Octets)
    requires payload != [] && (before.None? ==> Opens(payload))
    requires whole == (if before.Some? then before.value else []) + payload && |whole| <= MAX_CLIENT_HELLO
    ensures ParseClientHello(whole) == Failure(Incomplete) ==> FeedStep(ClientParser(h), before, payload) == (Some(whole), None)
    ensures ParseClientHello(whole).Success? ==>
              FeedStep(ClientParser(h), before, payload) == (None, Some(ResultOf(h, ParseClientHello(whole).value, TRANSPORT_TCP)))
  {
    hide ParseClientHello, ResultOf;
  }

  /** While the bytes are a proper prefix of the records, they stay pending and yield nothing. */
  lemma {:induction false} EarlierSegments(h: Hashes, segments: seq<Octets>, rs: seq<Record>, m: Octets)
    requires IsMessage(m) && Cuts(rs, [], m) && Announces(rs)
    requires (forall s | s in segments :: s != []) && segments != []
    requires Concat(segments) <= RecordsBytes(rs) && |Concat(segments)| < |RecordsBytes(rs)|
    requires |Concat(segments)| <= MAX_CLIENT_HELLO
    ensures FeedAll(ClientParser(h), segments) == (Some(Concat(segments)), None)
    decreases |segments|
  {
    var n := |segments| - 1;
    var earlier := segments[..n];
    ConcatGrows(segments);
    assert segments[n] in segments;
    PrefixAsksForMore(rs, m, Concat(segments));
    hide RecordsBytes, Cuts, Announces, IsMessage, ParseClientHello, FeedStep, Opens;
    if n > 0 {
      assert forall s | s in earlier :: s in segments;
      EarlierSegments(h, earlier, rs, m);
    } else {
      assert RecordsBytes(rs) + [] == RecordsBytes(rs);
      assert earlier == [] && Concat(segments) == [] + segments[0] == segments[0];
      PrefixOpens(rs, m, segments[0], []);
    }
    StepParses(h, FeedAll(ClientParser(h), earlier).0, segments[n], Concat(segments));
  }

  /** Segments whose bytes are a cut hello, the last one completing it and perhaps carrying more. */
  ghost predicate Delivers(segments: seq<Octets>, rs: seq<Record>, back: Octets) {
    && (forall s | s in segments :: s != []) && segments != []
    && Concat(segments) == RecordsBytes(rs) + back && |Concat(segments)| <= MAX_CLIENT_HELLO
    && |Concat(segments[..|segments| - 1])| < |RecordsBytes(rs)|
  }

  lemma EarlierYieldNothing(h: Hashes, segments: seq<Octets>, rs: seq<Record>, m: Octets, back: Octets, k: nat)
    requires IsMessage(m) && Cuts(rs, [], m) && Announces(rs) && Delivers(segments, rs, back)
    requires 0 < k < |segments|
    ensures FeedAll(ClientParser(h), segments[..k]) == (Some(Concat(segments[..k])), None)
  {
    hide RecordsBytes, Cuts, Announces, IsMessage, FeedAll;
    PrefixSegments(segments, k);
    EarlierSegments(h, segments[..k], rs, m);
  }

  lemma LastYields(h: Hashes, segments: seq<Octets>, rs: seq<Record>, m: Octets, back: Octets, ch: ClientHello)
    requires IsMessage(m) && Cuts(rs, [], m) && Announces(rs) && Delivers(segments, rs, back)
    requires ParseHandshake(m) == Success(ch)
    ensures FeedAll(ClientParser(h), segments) == (None, Some(ResultOf(h, ch, TRANSPORT_TCP)))
  {
    hide RecordsBytes, Cuts, Announces, IsMessage, ParseClientHello, ParseHandshake, ResultOf, FeedStep, Opens;
    hide ClientParser;
    var n := |segments| - 1;
    var earlier := segments[..n];
    assert segments[n] in segments;
    CutParses(rs, m, back);
    if n == 0 {
      assert earlier == [] && Concat(segments) == [] + segments[0] == segments[0];
      PrefixOpens(rs, m, segments[0], back);
    } else {
      PrefixSegments(segments, n);
      EarlierSegments(h, earlier, rs, m);
    }
    StepParses(h, FeedAll(ClientParser(h), earlier).0, segments[n], Concat(segments));
  }

  /**
   However an acceptable hello is cut into records, and those bytes into non-empty segments, a
   fresh flow yields nothing on every earlier segment, then on the segment that completes it the
   same result as the message whole, leaving nothing pending. The last segment may carry bytes
   that follow the hello.
   */
  lemma AnySegmentation(h: Hashes, segments: seq<Octets>, rs: seq<Record>, m: Octets, back: Octets, ch: ClientHello)
    requires IsMessage(m) && Cuts(rs, [], m) && Announces(rs) && Delivers(segments, rs, back)
    requires ParseHandshake(m) == Success(ch)
    ensures forall k | 0 < k < |segments| ::
              FeedAll(ClientParser(h), segments[..k]) == (Some(Concat(segments[..k])), None)
    ensures FeedAll(ClientParser(h), segments) == (None, Some(ResultOf(h, ch, TRANSPORT_TCP)))
  {
    hide RecordsBytes, Cuts, Announces, IsMessage, ParseHandshake, FeedAll, Delivers, ResultOf;
    forall k | 0 < k < |segments|
      ensures FeedAll(ClientParser(h), segments[..k]) == (Some(Concat(segments[..k])), None)
    {
      EarlierYieldNothing(h, segments, rs, m, back, k);
    }
    LastYields(h, segments, rs, m, back, ch);
  }

  /** The bytes of fewer segments are a prefix of the bytes of more. */
  lemma {:induction false} PrefixSegments(segments: seq<Octets>, k: nat)
    requires k < |segments|
    ensures Concat(segments[..k]) <= Concat(segments[..|segments| - 1]) <= Concat(segments)
    ensures forall s | s in segments[..k] :: s in segments
    decreases |segments|
  {
    var earlier := segments[..|segments| - 1];
    if k < |earlier| {
      PrefixSegments(earlier, k);
      assert earlier[..k] == segments[..k];
    }
  }

  lemma FeedAllNext<R>(parse: Octets -> Verdict<R>, segments: seq<Octets>, n: nat)
    requires n < |segments|
    ensures FeedAll(parse, segments[..n + 1]) == FeedStep(parse, FeedAll(parse, segments[..n]).0, segments[n])
  {
    hide FeedStep;
    assert segments[..n + 1][..n] == segments[..n];
  }

  lemma FeedAllEnds<R>(parse: Octets -> Verdict<R>, segments: seq<Octets>)
    ensures FeedAll(parse, segments[..0]).0 == None && segments[..|segments|] == segments
  {
  }

  /** Feeding a fresh flow its segments in turn yields what `FeedAll` says of each. */
  method FeedEach<R>(q: Reassembler<R>, key: FlowKey, segments: seq<Octets>) returns (out: seq<Option<R>>)
    requires q.Valid() && key !in q.pending
    modifies q
    ensures q.Valid() && Lookup(q.pending, key) == FeedAll(q.parse, segments).0
    ensures |out| == |segments| && forall k | 0 <= k < |out| :: out[k] == FeedAll(q.parse, segments[..k + 1]).1
  {
    hide FeedAll, FeedStep, Untouched, Opens;
    out := [];
    FeedAllEnds(q.parse, segments);
    for n := 0 to |segments|
      invariant q.Valid() && Lookup(q.pending, key) == FeedAll(q.parse, segments[..n]).0
      invariant |out| == n && forall k | 0 <= k < n :: out[k] == FeedAll(q.parse, segments[..k + 1]).1
    {
      FeedAllNext(q.parse, segments, n);
      ghost var victim;
      var r;
      r, victim := q.Feed(key, segments[n]);
      out := out + [r];
    }
  }

  lemma SomeDelivered(segments: seq<Octets>, rs: seq<Record>, back: Octets)
    requires Delivers(segments, rs, back)
    ensures segments != []
  {
  }

  /**
   A fresh flow fed the segments of an acceptable hello yields nothing until the one that completes
   it, and on it the result of the message whole, leaving nothing pending.
   */
  method Deliver(q: Reassembler<ClientResult>, key: FlowKey, segments: seq<Octets>, ghost h: Hashes,
                 ghost rs: seq<Record>,
                 ghost m: Octets, ghost back: Octets, ghost ch: ClientHello) returns (out: seq<Option<ClientResult>>)
    requires q.Valid() && key !in q.pending && q.parse == ClientParser(h)
    requires IsMessage(m) && Cuts(rs, [], m) && Announces(rs) && Delivers(segments, rs, back)
    requires ParseHandshake(m) == Success(ch)
    modifies q
    ensures q.Valid() && key !in q.pending && |out| == |segments| > 0
    ensures forall k | 0 <= k < |out| - 1 :: out[k] == None
    ensures out[|out| - 1] == Some(ResultOf(h, ch, TRANSPORT_TCP))
  {
    hide RecordsBytes, Cuts, Announces, IsMessage, ParseHandshake, FeedAll, Concat, ResultOf, ClientParser, Delivers;
    AnySegmentation(h, segments, rs, m, back, ch);
    FeedAllEnds(q.parse, segments);
    SomeDelivered(segments, rs, back);
    out := FeedEach(q, key, segments);
  }
}
