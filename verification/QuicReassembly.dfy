/** Turning UDP datagrams into client fingerprints: one CRYPTO stream for each flow in progress. */
module QuicReassembly {
  import opened Bytes
  import opened Collections
  import opened Flows
  import opened Keys
  import opened Frames
  import opened Initial
  import opened CryptoStreams
  import opened ClientHellos
  import opened Fingerprints
  import opened Reassembly

  lemma RunAppend(run: seq<Buffered>, fs: seq<CryptoFrame>, f: CryptoFrame, next: Buffered)
    requires IsRun(run, fs) && Received(run[|fs|], f, next)
    ensures IsRun(run + [next], fs + [f])
  {
    hide Received;
    var r, g := run + [next], fs + [f];
    forall k | 0 <= k < |g| ensures Received(r[k], g[k], r[k + 1]) {
      assert r[k] == run[k];
    }
  }

  predicate AllInBounds(fs: seq<CryptoFrame>) { forall f | f in fs :: InBounds(f) }

  /** Add fragments until one is out of bounds, keeping the run of states they pass through. */
  method AddAll(stream: CryptoStream, fs: seq<CryptoFrame>, ghost run: seq<Buffered>, ghost before: seq<CryptoFrame>)
    returns (ok: bool, ghost after: seq<Buffered>)
    requires stream.Valid() && IsRun(run, before) && run[|before|] == stream.State()
    modifies stream
    ensures stream.Valid() && ok == AllInBounds(fs)
    ensures ok ==> IsRun(after, before + fs) && after[|before + fs|] == stream.State()
  {
    hide Received, WellFormed;
    after := run;
    ghost var done := before;
    var i := 0;
    while i < |fs|
      invariant 0 <= i <= |fs| && stream.Valid() && AllInBounds(fs[..i])
      invariant done == before + fs[..i] && IsRun(after, done) && after[|done|] == stream.State()
    {
      var added := stream.Add(fs[i]);
      if !added {
        assert fs[i] in fs;
        return false, after;
      }
      RunAppend(after, done, fs[i], stream.State());
      after := after + [stream.State()];
      assert fs[..i + 1] == fs[..i] + [fs[i]];
      done := done + [fs[i]];
      i := i + 1;
    }
    assert fs[..i] == fs;
    return true, after;
  }

  /** What a complete handshake message becomes. */
  function QuicResult(h: Hashes, body: Octets): Option<ClientResult> {
    match ParseHandshake(body)
    case Failure(_) => None
    case Success(ch) => Some(ResultOf(h, ch, TRANSPORT_QUIC))
  }

  /** The frames a datagram brings, none when it is not a client Initial. */
  function FramesOf(c: Primitives, datagram: Octets): seq<CryptoFrame>
    requires c.Sound()
  {
    match ParseInitial(c, datagram)
    case Failure(_) => []
    case Success(packet) => packet.frames
  }

  /** The fragments a flow has brought since it opened, and the states they led through. */
  datatype Trace = Trace(frames: seq<CryptoFrame>, run: seq<Buffered>)

  /** A stream is where its trace has led. */
  ghost predicate Tracks(s: CryptoStream, t: Trace)
    reads s
  {
    s.Valid() && IsRun(t.run, t.frames) && t.run[|t.frames|] == s.State()
  }

  class QuicReassembler {
    var pending: map<FlowKey, CryptoStream>
    var dropped: nat
    const maxPending: nat
    const c: Primitives
    const h: Hashes
    ghost var traces: map<FlowKey, Trace>
    ghost var repr: set<CryptoStream>

    /** Streams are not shared, and every one but that of `key` is where its trace has led. */
    ghost predicate ValidBut(key: Option<FlowKey>)
      reads `pending, `traces, `repr, repr
    {
      && maxPending > 0 && |pending| <= maxPending && c.Sound()
      && (forall k, l | k in pending && l in pending && k != l :: pending[k] != pending[l])
      && (forall k | k in pending :: pending[k] in repr)
      && (forall k | k in pending && Some(k) != key :: k in traces && Tracks(pending[k], traces[k]))
    }

    ghost predicate Valid()
      reads `pending, `traces, `repr, repr
    {
      ValidBut(None)
    }

    constructor (maxPending: nat, c: Primitives, h: Hashes)
      requires maxPending > 0 && c.Sound()
      ensures Valid() && pending == map[] && dropped == 0 && repr == {}
      ensures this.maxPending == maxPending && this.c == c && this.h == h
    {
      pending := map[];
      dropped := 0;
      this.maxPending := maxPending;
      this.c := c;
      this.h := h;
      traces := map[];
      repr := {};
    }

    /** Remove a flow's stream, if it has one. */
    method Forget(key: FlowKey)
      requires Valid()
      modifies this`pending
      ensures Valid() && pending == old(pending) - {key}
    {
      hide Tracks, ValidBut;
      if key in pending {
        Loosen(key);
        Discard(key);
      }
    }

    /** What holds of every flow holds of every other flow. */
    lemma Loosen(key: FlowKey)
      requires Valid()
      ensures ValidBut(Some(key)) && maxPending > 0 && |pending| <= maxPending
    {
      hide Tracks;
    }

    method Discard(key: FlowKey)
      requires ValidBut(Some(key)) && key in pending
      modifies this`pending
      ensures Valid() && pending == old(pending) - {key}
    {
      hide Tracks;
      Shrinks(pending, key);
      pending := pending - {key};
    }

    /** Drop whichever entry the map offers first when the map is full. */
    method MakeRoom(key: FlowKey) returns (ghost victim: Option<FlowKey>)
      requires Valid() && key !in pending
      modifies this`pending, this`dropped
      ensures Valid() && |pending| < maxPending && key !in pending && Untouched(key, victim, old(pending), pending)
      ensures victim.Some? <==> |old(pending)| == maxPending
      ensures victim.Some? ==> victim.value in old(pending)
      ensures dropped == old(dropped) + if victim.Some? then 1 else 0
    {
      hide Tracks, Untouched, ValidBut;
      Loosen(key);
      UntouchedStarts(key, pending);
      victim := None;
      if |pending| >= maxPending {
        assert pending.Keys != {};
        var v :| v in pending.Keys;
        victim := Some(v);
        Shrinks(pending, v);
        Forget(v);
        dropped := dropped + 1;
      }
    }

    /** A fresh stream for a flow that has none, its trace still to come. */
    method Place(key: FlowKey, s: CryptoStream)
      requires Valid() && key !in pending && |pending| < maxPending && s !in repr
      modifies this`pending, this`repr
      ensures ValidBut(Some(key)) && pending == old(pending)[key := s] && repr == old(repr) + {s}
    {
      hide Tracks;
      Grows(pending, key, s);
      pending := pending[key := s];
      repr := repr + {s};
    }

    ghost method Retrace(key: FlowKey, t: Trace)
      requires ValidBut(Some(key)) && key in pending && Tracks(pending[key], t)
      modifies this`traces
      ensures Valid() && traces == old(traces)[key := t]
    {
      hide Tracks;
      traces := traces[key := t];
    }

    /** A new, empty stream for a flow that has none. */
    method Open(key: FlowKey) returns (s: CryptoStream)
      requires Valid() && key !in pending && |pending| < maxPending
      modifies this`pending, this`traces, this`repr
      ensures Valid() && fresh(s) && pending == old(pending)[key := s] && repr == old(repr) + {s}
      ensures traces == old(traces)[key := Trace([], [EMPTY])]
    {
      hide Tracks, ValidBut;
      s := new CryptoStream();
      Opened(s);
      Place(key, s);
      Retrace(key, Trace([], [EMPTY]));
    }

    /** Add fragments to the stream of a pending flow, whose trace is left behind. */
    method Extend(key: FlowKey, fs: seq<CryptoFrame>) returns (ok: bool, ghost t: Trace)
      requires Valid() && key in pending
      modifies pending[key]
      ensures ValidBut(Some(key)) && ok == AllInBounds(fs)
      ensures ok ==> Tracks(pending[key], t) && t.frames == traces[key].frames + fs
    {
      hide IsRun, AllInBounds, Tracks, WellFormed;
      var s := pending[key];
      t := traces[key];
      ghost var run;
      Unfold(s, t);
      ok, run := AddAll(s, fs, t.run, t.frames);
      t := Trace(t.frames + fs, run);
      if ok {
        Fold(s, t);
      }
    }

    /** Add a datagram's fragments to the stream of a pending flow; a bad one discards the flow. */
    method Advance(key: FlowKey, fs: seq<CryptoFrame>) returns (ok: bool)
      requires Valid() && key in pending
      modifies this`pending, this`traces, pending[key]
      ensures Valid() && ok == AllInBounds(fs)
      ensures if ok then pending == old(pending) && key in traces && traces[key].frames == old(traces[key].frames) + fs
              else pending == old(pending) - {key}
      ensures Untouched(key, None, old(traces), traces)
    {
      hide AllInBounds, Tracks, Untouched, ValidBut;
      Tracked(key);
      UntouchedStarts(key, traces);
      ghost var t;
      ok, t := Extend(key, fs);
      UntouchedFed(key, None, traces, traces, t);
      if ok {
        Retrace(key, t);
      } else {
        Discard(key);
      }
    }

    lemma Tracked(key: FlowKey)
      requires Valid() && key in pending
      ensures key in traces && pending[key] in repr && c.Sound() && Tracks(pending[key], traces[key])
    {
      hide Tracks;
    }

    /** Finish a pending flow when its message is whole. */
    method Conclude(key: FlowKey) returns (r: Option<ClientResult>)
      requires Valid() && key in pending
      modifies this`pending
      ensures Valid() && Finishes(key, old(pending), traces[key], r)
    {
      hide IsRun, WellFormed, Handshake, Tracks, ValidBut;
      Tracked(key);
      Unfold(pending[key], traces[key]);
      RunWellFormed(traces[key]);
      var body := pending[key].TakeHandshake();
      if body.None? {
        return None;
      }
      Forget(key);
      var parsed := DecodeHandshake(body.value);
      r := if parsed.Failure? then None else Some(ResultOf(h, parsed.value, TRANSPORT_QUIC));
    }

    /** Once its message is whole a flow is forgotten and yields its result; until then it stays. */
    ghost predicate Finishes(key: FlowKey, before: map<FlowKey, CryptoStream>, t: Trace, r: Option<ClientResult>)
      reads `pending
    {
      pending == (if r == None && key in pending then before else before - {key}) && Settled(h, t, key in pending, r)
    }

    method FeedFrames(key: FlowKey, fs: seq<CryptoFrame>) returns (r: Option<ClientResult>)
      requires Valid() && key in pending
      modifies this`pending, this`traces, pending[key]
      ensures Valid()
      ensures !AllInBounds(fs) ==> r == None && pending == old(pending) - {key}
      ensures AllInBounds(fs) ==>
                && key in traces && traces[key].frames == old(traces[key].frames) + fs
                && Finishes(key, old(pending), traces[key], r)
      ensures Untouched(key, None, old(pending), pending)
      ensures Untouched(key, None, old(traces), traces)
    {
      hide AllInBounds, Tracks, Settled, Untouched, ValidBut;
      Tracked(key);
      UntouchedStarts(key, pending);
      UntouchedFed(key, None, pending, pending, pending[key]);
      var ok := Advance(key, fs);
      if !ok {
        return None;
      }
      r := Conclude(key);
    }

    /** The stream of a flow, after making room for a new one if need be. */
    method Ensure(key: FlowKey) returns (ghost victim: Option<FlowKey>)
      requires Valid()
      modifies this`pending, this`dropped, this`traces, this`repr
      ensures Valid() && fresh(repr - old(repr)) && key in pending && (key in old(pending) || fresh(pending[key]))
      ensures Untouched(key, victim, old(pending), pending)
      ensures victim.Some? ==> victim.value in old(pending) && key !in old(pending) && |old(pending)| == maxPending
      ensures traces[key].frames == if key in old(pending) then old(traces[key]).frames else []
      ensures Untouched(key, None, old(traces), traces)
    {
      hide Tracks, Untouched, ValidBut;
      ghost var before := pending;
      UntouchedStarts(key, traces);
      UntouchedStarts(key, before);
      victim := None;
      if key !in pending {
        UntouchedFed(key, None, traces, traces, Trace([], [EMPTY]));
        victim := MakeRoom(key);
        ghost var roomy := pending;
        var s := Open(key);
        UntouchedFed(key, victim, before, roomy, s);
      } else {
        Tracked(key);
      }
    }

    /**
     Feed one UDP datagram. What a flow is still waiting for, and what it yields, is decided by all
     the fragments it has brought since it opened, in order.
     */
    method Feed(key: FlowKey, datagram: Octets) returns (r: Option<ClientResult>, ghost victim: Option<FlowKey>)
      requires Valid()
      modifies this`pending, this`dropped, this`traces, this`repr, repr
      ensures Valid() && fresh(repr - old(repr))
      ensures victim.Some? ==> victim.value in old(pending) && key !in old(pending) && |old(pending)| == maxPending
      ensures Untouched(key, victim, old(pending), pending)
      ensures Untouched(key, None, old(traces), traces)
      ensures
        var fs := FramesOf(c, datagram);
        if fs == [] then r == None && victim == None && pending == old(pending) && traces == old(traces)
        else if !AllInBounds(fs) then r == None && key !in pending
        else
          && key in traces && traces[key].frames == (if key in old(pending) then old(traces[key]).frames else []) + fs
          && Settled(h, traces[key], key in pending, r)
    {
      hide AllInBounds, Tracks, Settled, ParseInitial, Untouched, ValidBut;
      victim := None;
      SoundHere();
      UntouchedStarts(key, traces);
      UntouchedStarts(key, pending);
      var pkt := Parse(c, datagram);
      if pkt.Failure? || pkt.value.frames == [] {
        return None, None;
      }
      ghost var first, held := traces, pending;
      victim := Ensure(key);
      Tracked(key);
      ghost var ensured, with := traces, pending;
      r := FeedFrames(key, pkt.value.frames);
      UntouchedThen(key, None, first, ensured, traces);
      UntouchedThen(key, victim, held, with, pending);
    }

    lemma SoundHere()
      requires Valid()
      ensures c.Sound()
    {
      hide Tracks;
    }
  }

  /** A flow stays pending exactly while its trace holds no whole message; the message decides the result. */
  ghost predicate Settled(h: Hashes, t: Trace, waiting: bool, r: Option<ClientResult>) {
    && IsRun(t.run, t.frames) && WellFormed(t.run[|t.frames|])
    && var body := Handshake(t.run[|t.frames|]);
       waiting == body.None? && r == if body.Some? then QuicResult(h, body.value) else None
  }

  /** The first message of a stream, when it is whole, within the bound, and every byte of it has come. */
  ghost predicate MessageCame(stream: Octets, fs: seq<CryptoFrame>) {
    |stream| >= 4 && MessageLength(stream) <= Min(|stream|, MAX_CRYPTO_BYTES) && AllWithin(fs, MessageLength(stream))
  }

  /**
   So for a flow whose fragments all come from one stream, in any order and over any datagrams, a
   result comes with the datagram that covers the stream's first message, and is that message's; a
   message that is cut short or over the bound keeps the flow waiting for good.
   */
  lemma SettledExactlyWhenCovered(h: Hashes, t: Trace, waiting: bool, r: Option<ClientResult>, stream: Octets)
    requires Settled(h, t, waiting, r) && forall f | f in t.frames :: FragmentOf(f, stream)
    ensures waiting <==> !MessageCame(stream, t.frames)
    ensures r == if waiting then None else QuicResult(h, stream[..MessageLength(stream)])
  {
    hide IsRun, WellFormed, Handshake, AllWithin, MessageLength;
    HandshakeExactlyWhenCovered(t.run, t.frames, stream);
  }

  lemma Unfold(s: CryptoStream, t: Trace)
    requires Tracks(s, t)
    ensures s.Valid() && IsRun(t.run, t.frames) && t.run[|t.frames|] == s.State()
  {
  }

  lemma Fold(s: CryptoStream, t: Trace)
    requires s.Valid() && IsRun(t.run, t.frames) && t.run[|t.frames|] == s.State()
    ensures Tracks(s, t)
  {
  }

  lemma RunWellFormed(t: Trace)
    requires IsRun(t.run, t.frames)
    ensures WellFormed(t.run[|t.frames|])
  {
    RunCoversUnion(t.run, t.frames, 0);
  }

  lemma Opened(s: CryptoStream)
    requires s.Valid() && s.State() == EMPTY
    ensures Tracks(s, Trace([], [EMPTY]))
  {
  }
}
