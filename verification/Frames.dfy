/**
 The frames of a QUIC Initial payload. The parser collects CRYPTO frames and walks past the
 few others a client's first flight can hold; the encoder below follows sections 19.1 to 19.3
 and 19.6 of RFC 9000.
 */
module Frames {
  import opened Bytes
  import opened Collections
  import opened Cursors
  import opened Varints

  const MAX_CRYPTO_BYTES := 16384

  const PADDING := 0x00
  const PING := 0x01
  const ACK := 0x02
  const ACK_ECN := 0x03
  const CRYPTO := 0x06

  datatype QuicError = NotInitial | Malformed | Truncated

  /** Handshake bytes and the offset they belong at. */
  datatype CryptoFrame = CryptoFrame(offset: nat, data: Octets)

  /** The frames found before the walk stopped, and why it stopped if that was an error. */
  datatype Parsed = Parsed(frames: seq<CryptoFrame>, error: Option<QuicError>)

  function Prepend(fs: seq<CryptoFrame>, p: Parsed): Parsed {
    Parsed(fs + p.frames, p.error)
  }

  function SkipVarint(s: Src): (r: Src)
    ensures |r.rest| <= |s.rest|
  {
    ReadVarint(s).1
  }

  function SkipPairs(s: Src, n: nat): (r: Src)
    ensures |r.rest| <= |s.rest|
    decreases n
  {
    if n == 0 || s.bad then s else SkipPairs(SkipVarint(SkipVarint(s)), n - 1)
  }

  /** The body of an ACK frame; None when its range count exceeds the payload length. */
  function SkipAck(s: Src, ecn: bool, limit: nat): (r: Option<Src>)
    ensures r.Some? ==> |r.value.rest| <= |s.rest|
  {
    var (count, s1) := ReadVarint(SkipVarint(SkipVarint(s)));
    var s2 := SkipVarint(s1);
    if count > limit then None
    else
      var s3 := SkipPairs(s2, count);
      Some(if ecn then SkipVarint(SkipVarint(SkipVarint(s3))) else s3)
  }

  function ReadCrypto(s: Src): (r: (Result<CryptoFrame, QuicError>, Src))
    ensures |r.1.rest| <= |s.rest|
  {
    var (offset, s1) := ReadVarint(s);
    var (length, s2) := ReadVarint(s1);
    var (data, s3) := s2.ReadBytes(length);
    if s3.bad then (Failure(Truncated), s3)
    else if offset > MAX_CRYPTO_BYTES || length > MAX_CRYPTO_BYTES then (Failure(Malformed), s3)
    else (Success(CryptoFrame(offset, data)), s3)
  }

  /** One frame: the walk ends, passes over it, or finds CRYPTO data. */
  datatype Step = End(error: Option<QuicError>) | Skipped(next: Src) | Found(frame: CryptoFrame, next: Src)

  function ReadFrame(s: Src, limit: nat): (r: Step)
    requires |s.rest| > 0
    ensures !r.End? ==> |r.next.rest| < |s.rest|
  {
    var (t, s1) := ReadVarint(s);
    if t == PADDING || t == PING then Skipped(s1)
    else if t == ACK || t == ACK_ECN then
      match SkipAck(s1, t == ACK_ECN, limit)
      case None => End(Some(Malformed))
      case Some(s2) => Skipped(s2)
    else if t == CRYPTO then
      var (f, s2) := ReadCrypto(s1);
      match f
      case Failure(e) => End(Some(e))
      case Success(frame) => Found(frame, s2)
    else End(None) // CONNECTION_CLOSE, or a type whose length is unknown
  }

  function FramesFrom(s: Src, limit: nat): (p: Parsed)
    decreases |s.rest|
  {
    if |s.rest| == 0 || s.bad then Parsed([], None)
    else
      match ReadFrame(s, limit)
      case End(e) => Parsed([], e)
      case Skipped(next) => FramesFrom(next, limit)
      case Found(frame, next) => Prepend([frame], FramesFrom(next, limit))
  }

  method SkipAckFrom(r: Cursor, ecn: bool, limit: nat) returns (ok: bool)
    requires r.Valid()
    modifies r
    ensures r.Valid()
    ensures ok == SkipAck(old(r.View()), ecn, limit).Some?
    ensures ok ==> r.View() == SkipAck(old(r.View()), ecn, limit).value
  {
    hide ReadVarint;
    var _ := ReadVarintFrom(r);
    var _ := ReadVarintFrom(r);
    var count := ReadVarintFrom(r);
    var _ := ReadVarintFrom(r);
    if count > limit {
      return false; // more ranges than the payload has bytes
    }
    ghost var body := r.View();
    var i := 0;
    while i < count && !r.bad
      invariant 0 <= i <= count && r.Valid()
      invariant SkipPairs(r.View(), count - i) == SkipPairs(body, count)
    {
      var _ := ReadVarintFrom(r);
      var _ := ReadVarintFrom(r);
      i := i + 1;
    }
    if ecn {
      var _ := ReadVarintFrom(r);
      var _ := ReadVarintFrom(r);
      var _ := ReadVarintFrom(r);
    }
    return true;
  }

  method ReadCryptoFrom(r: Cursor) returns (f: Result<CryptoFrame, QuicError>)
    requires r.Valid()
    modifies r
    ensures r.Valid() && (f, r.View()) == ReadCrypto(old(r.View()))
  {
    hide ReadVarint;
    var offset := ReadVarintFrom(r);
    var length := ReadVarintFrom(r);
    var data := r.Bytes(length);
    if r.bad {
      return Failure(Truncated);
    }
    if offset > MAX_CRYPTO_BYTES || length > MAX_CRYPTO_BYTES {
      return Failure(Malformed);
    }
    return Success(CryptoFrame(offset, data));
  }

  lemma PrependOne(fs: seq<CryptoFrame>, f: CryptoFrame, p: Parsed)
    ensures Prepend(fs, Prepend([f], p)) == Prepend(fs + [f], p)
  {
    assert fs + ([f] + p.frames) == (fs + [f]) + p.frames;
  }

  method ReadFrameFrom(r: Cursor, limit: nat) returns (step: Step)
    requires r.Valid() && r.Remaining() > 0
    modifies r
    ensures r.Valid() && step == ReadFrame(old(r.View()), limit)
    ensures !step.End? ==> r.View() == step.next
  {
    hide ReadVarint, SkipAck, ReadCrypto;
    var t := ReadVarintFrom(r);
    if t == PADDING || t == PING {
      return Skipped(r.View());
    } else if t == ACK || t == ACK_ECN {
      var ok := SkipAckFrom(r, t == ACK_ECN, limit);
      return if ok then Skipped(r.View()) else End(Some(Malformed));
    } else if t == CRYPTO {
      var f := ReadCryptoFrom(r);
      return if f.Failure? then End(Some(f.error)) else Found(f.value, r.View());
    }
    return End(None);
  }

  /** What one frame read adds to the frames read before it. */
  lemma WalkStep(fs: seq<CryptoFrame>, s: Src, limit: nat)
    requires |s.rest| > 0 && !s.bad
    ensures var step := ReadFrame(s, limit);
            Prepend(fs, FramesFrom(s, limit)) ==
            if step.End? then Parsed(fs, step.error)
            else Prepend(if step.Found? then fs + [step.frame] else fs, FramesFrom(step.next, limit))
  {
    hide ReadFrame;
    var step := ReadFrame(s, limit);
    if step.End? {
      assert fs + [] == fs;
    } else if step.Found? {
      PrependOne(fs, step.frame, FramesFrom(step.next, limit));
    }
  }

  lemma WalkEnds(fs: seq<CryptoFrame>, s: Src, limit: nat)
    requires |s.rest| == 0 || s.bad
    ensures Prepend(fs, FramesFrom(s, limit)) == Parsed(fs, None)
  {
    assert fs + [] == fs;
  }

  lemma WalkStarts(p: Parsed)
    ensures Prepend([], p) == p
  {
    assert [] + p.frames == p.frames;
  }

  /** The walk as the parser performs it. */
  method ParseFrames(payload: Octets) returns (p: Parsed)
    ensures p == FramesFrom(Src(payload, false), |payload|)
  {
    hide ReadFrame, FramesFrom, Prepend;
    var r := new Cursor(payload);
    var frames: seq<CryptoFrame> := [];
    WalkStarts(FramesFrom(Src(payload, false), |payload|));
    while r.Remaining() > 0 && !r.bad
      invariant r.Valid()
      invariant Prepend(frames, FramesFrom(r.View(), |payload|)) == FramesFrom(Src(payload, false), |payload|)
      decreases r.Remaining()
    {
      WalkStep(frames, r.View(), |payload|);
      var step := ReadFrameFrom(r, |payload|);
      match step {
        case End(e) => return Parsed(frames, e);
        case Skipped(_) =>
        case Found(frame, _) => frames := frames + [frame];
      }
    }
    WalkEnds(frames, r.View(), |payload|);
    return Parsed(frames, None);
  }

  // --- the encoder ---

  datatype Frame =
    | Padding
    | Ping
    | Ack(largest: VarintValue, delay: VarintValue, first: VarintValue, ranges: seq<AckRange>, ecn: Option<EcnCounts>)
    | Crypto(frame: CryptoFrame)

  datatype AckRange = AckRange(gap: VarintValue, length: VarintValue)

  datatype EcnCounts = EcnCounts(ect0: VarintValue, ect1: VarintValue, ce: VarintValue)

  /** The range count fits its varint, and a CRYPTO frame is within the bound the sensor accepts. */
  predicate Encodable(f: Frame) {
    && (f.Ack? ==> |f.ranges| < VARINT_LIMIT)
    && (f.Crypto? ==> f.frame.offset <= MAX_CRYPTO_BYTES && |f.frame.data| <= MAX_CRYPTO_BYTES)
  }

  function EncodeRanges(rs: seq<AckRange>): (s: Octets)
    ensures |s| >= |rs|
  {
    if rs == [] then [] else Varint(rs[0].gap) + (Varint(rs[0].length) + EncodeRanges(rs[1..]))
  }

  function EncodeEcn(ecn: Option<EcnCounts>): Octets {
    match ecn
    case None => []
    case Some(e) => Varint(e.ect0) + (Varint(e.ect1) + Varint(e.ce))
  }

  function CryptoBody(offset: VarintValue, data: Octets): Octets
    requires |data| < VARINT_LIMIT
  {
    Varint(offset) + (Varint(|data|) + data)
  }

  function AckBody(f: Frame): (s: Octets)
    requires f.Ack? && Encodable(f)
    ensures |s| >= |f.ranges|
  {
    Varint(f.largest) + (Varint(f.delay) + (Varint(|f.ranges|)
    + (Varint(f.first) + (EncodeRanges(f.ranges) + EncodeEcn(f.ecn)))))
  }

  function EncodeFrame(f: Frame): (s: Octets)
    requires Encodable(f)
  {
    match f
    case Padding => Varint(PADDING)
    case Ping => Varint(PING)
    case Ack(_, _, _, _, ecn) => Varint(if ecn.Some? then ACK_ECN else ACK) + AckBody(f)
    case Crypto(c) => Varint(CRYPTO) + CryptoBody(c.offset, c.data)
  }

  function Encode(fs: seq<Frame>): Octets
    requires forall f | f in fs :: Encodable(f)
  {
    if fs == [] then [] else EncodeFrame(fs[0]) + Encode(fs[1..])
  }

  /** The CRYPTO frames of a list, in order. */
  function CryptoOf(fs: seq<Frame>): seq<CryptoFrame> {
    if fs == [] then [] else (if fs[0].Crypto? then [fs[0].frame] else []) + CryptoOf(fs[1..])
  }

  lemma SkipVarintFront(v: VarintValue, tail: Octets, back: Octets)
    ensures Varint(v) + tail + back == Varint(v) + (tail + back)
    ensures ReadVarint(Src(Varint(v) + tail + back, false)) == (v, Src(tail + back, false))
  {
    hide ReadVarint, Varint;
    Assoc(Varint(v), tail, back);
    ReadVarintFront(v, tail + back);
  }

  lemma {:induction false} SkipPairsFront(rs: seq<AckRange>, back: Octets)
    ensures SkipPairs(Src(EncodeRanges(rs) + back, false), |rs|) == Src(back, false)
  {
    hide ReadVarint, Varint;
    if rs == [] {
      assert EncodeRanges(rs) + back == back;
    } else {
      var tail := EncodeRanges(rs[1..]);
      SkipVarintFront(rs[0].gap, Varint(rs[0].length) + tail, back);
      SkipVarintFront(rs[0].length, tail, back);
      SkipPairsFront(rs[1..], back);
    }
  }

  lemma SkipEcnFront(e: EcnCounts, back: Octets)
    ensures SkipVarint(SkipVarint(SkipVarint(Src(EncodeEcn(Some(e)) + back, false)))) == Src(back, false)
  {
    hide ReadVarint, Varint;
    SkipVarintFront(e.ect0, Varint(e.ect1) + Varint(e.ce), back);
    SkipVarintFront(e.ect1, Varint(e.ce), back);
    ReadVarintFront(e.ce, back);
  }

  lemma SkipAckFront(f: Frame, back: Octets, limit: nat)
    requires f.Ack? && Encodable(f) && |f.ranges| <= limit
    ensures SkipAck(Src(AckBody(f) + back, false), f.ecn.Some?, limit) == Some(Src(back, false))
  {
    hide ReadVarint, Varint, SkipPairs, EncodeRanges, EncodeEcn;
    var ecn := EncodeEcn(f.ecn);
    var s4 := EncodeRanges(f.ranges) + ecn;
    var s3 := Varint(f.first) + s4;
    var s2 := Varint(|f.ranges|) + s3;
    var s1 := Varint(f.delay) + s2;
    SkipVarintFront(f.largest, s1, back);
    SkipVarintFront(f.delay, s2, back);
    SkipVarintFront(|f.ranges|, s3, back);
    SkipVarintFront(f.first, s4, back);
    Assoc(EncodeRanges(f.ranges), ecn, back);
    SkipPairsFront(f.ranges, ecn + back);
    EcnAbsent(f.ecn, back);
    if f.ecn.Some? {
      SkipEcnFront(f.ecn.value, back);
    }
  }

  lemma EcnAbsent(ecn: Option<EcnCounts>, back: Octets)
    ensures ecn.None? ==> EncodeEcn(ecn) + back == back
  {
  }

  lemma ReadCryptoFront(offset: VarintValue, data: Octets, back: Octets)
    requires |data| < VARINT_LIMIT
    ensures ReadCrypto(Src(CryptoBody(offset, data) + back, false))
            == (if offset <= 16384 && |data| <= 16384 then Success(CryptoFrame(offset, data)) else Failure(Malformed), Src(back, false))
  {
    hide ReadVarint, Varint;
    SkipVarintFront(offset, Varint(|data|) + data, back);
    SkipVarintFront(|data|, data, back);
    ReadBytesFront(data, back);
  }

  /** One encoded frame contributes its CRYPTO data, if any, and is otherwise walked past. */
  lemma OneFrame(f: Frame, back: Octets, limit: nat)
    requires Encodable(f) && |EncodeFrame(f) + back| <= limit
    ensures FramesFrom(Src(EncodeFrame(f) + back, false), limit)
            == Prepend(CryptoOf([f]), FramesFrom(Src(back, false), limit))
  {
    hide ReadVarint, Varint, SkipAck, ReadCrypto, AckBody, CryptoBody;
    match f {
      case Padding => ReadVarintFront(PADDING, back);
      case Ping => ReadVarintFront(PING, back);
      case Ack(_, _, _, ranges, ecn) =>
        SkipVarintFront(if ecn.Some? then ACK_ECN else ACK, AckBody(f), back);
        SkipAckFront(f, back, limit);
      case Crypto(c) =>
        SkipVarintFront(CRYPTO, CryptoBody(c.offset, c.data), back);
        ReadCryptoFront(c.offset, c.data, back);
    }
  }

  lemma NoFrames(back: Octets, p: Parsed)
    ensures Encode([]) + back == back && Prepend(CryptoOf([]), p) == p
  {
    assert [] + p.frames == p.frames;
  }

  lemma EncodeStep(fs: seq<Frame>)
    requires fs != [] && forall f | f in fs :: Encodable(f)
    ensures Encode(fs) == EncodeFrame(fs[0]) + Encode(fs[1..])
    ensures CryptoOf(fs) == CryptoOf([fs[0]]) + CryptoOf(fs[1..])
  {
    hide EncodeFrame, Encodable;
    assert [fs[0]][1..] == [];
  }

  lemma PrependTwice(a: seq<CryptoFrame>, b: seq<CryptoFrame>, p: Parsed)
    ensures Prepend(a, Prepend(b, p)) == Prepend(a + b, p)
  {
    Assoc(a, b, p.frames);
  }

  /**
   Every encoded frame sequence parses back to exactly its CRYPTO frames, in order, followed by
   whatever the bytes after it parse to.
   */
  lemma {:induction false} FramesRoundTrip(fs: seq<Frame>, back: Octets, limit: nat)
    requires forall f | f in fs :: Encodable(f)
    requires |Encode(fs) + back| <= limit
    ensures FramesFrom(Src(Encode(fs) + back, false), limit) == Prepend(CryptoOf(fs), FramesFrom(Src(back, false), limit))
    decreases |fs|
  {
    hide FramesFrom, EncodeFrame, Encode, CryptoOf, Prepend, Encodable;
    if fs == [] {
      NoFrames(back, FramesFrom(Src(back, false), limit));
    } else {
      var rest := fs[1..];
      var tail := Encode(rest) + back;
      EncodeStep(fs);
      Assoc(EncodeFrame(fs[0]), Encode(rest), back);
      OneFrame(fs[0], tail, limit);
      FramesRoundTrip(rest, back, limit);
      PrependTwice(CryptoOf([fs[0]]), CryptoOf(rest), FramesFrom(Src(back, false), limit));
    }
  }

  /** Whatever the payload, only frames within the sensor's bound are reported. */
  lemma {:induction false} FramesWithinBound(s: Src, limit: nat)
    ensures forall f | f in FramesFrom(s, limit).frames :: f.offset <= 16384 && |f.data| <= 16384
    decreases |s.rest|
  {
    hide ReadVarint, SkipAck;
    if |s.rest| > 0 && !s.bad {
      var step := ReadFrame(s, limit);
      if !step.End? {
        FramesWithinBound(step.next, limit);
      }
    }
  }

  lemma TypeReads(t: Byte, back: Octets)
    requires t < 64
    ensures ReadVarint(Src([t] + back, false)) == (t, Src(back, false))
  {
    ReadTagged(t, 0, back);
  }

  /** The frame types that are known; any other ends the walk, and so does CONNECTION_CLOSE. */
  lemma FrameByType(t: Byte, back: Octets, limit: nat)
    requires t < 64
    ensures
      var f, body := ReadFrame(Src([t] + back, false), limit), Src(back, false);
      && (t == 0 || t == 1 ==> f == Skipped(body))
      && (t == 2 || t == 3 ==>
            f == if SkipAck(body, t == 3, limit).None? then End(Some(Malformed)) else Skipped(SkipAck(body, t == 3, limit).value))
      && (t == 6 ==>
            f == if ReadCrypto(body).0.Failure? then End(Some(ReadCrypto(body).0.error))
                 else Found(ReadCrypto(body).0.value, ReadCrypto(body).1))
      && (t !in {0, 1, 2, 3, 6} ==> f == End(None))
  {
    hide ReadVarint, SkipAck, ReadCrypto;
    TypeReads(t, back);
  }

  /** A CRYPTO frame in full is found, or malformed past the bound; one cut short is truncated. */
  lemma CryptoFrameReads(offset: VarintValue, data: Octets, back: Octets, limit: nat)
    requires |data| < VARINT_LIMIT
    ensures ReadFrame(Src([6] + (CryptoBody(offset, data) + back), false), limit)
            == if offset <= 16384 && |data| <= 16384 then Found(CryptoFrame(offset, data), Src(back, false)) else End(Some(Malformed))
  {
    hide ReadVarint, ReadCrypto, CryptoBody, ReadFrame;
    FrameByType(6, CryptoBody(offset, data) + back, limit);
    ReadCryptoFront(offset, data, back);
  }

  lemma CryptoFrameCut(offset: VarintValue, length: VarintValue, part: Octets, limit: nat)
    requires |part| < length
    ensures ReadFrame(Src([6] + (Varint(offset) + (Varint(length) + part)), false), limit) == End(Some(Truncated))
  {
    hide ReadVarint, Varint, ReadFrame;
    FrameByType(6, Varint(offset) + (Varint(length) + part), limit);
    ReadVarintFront(offset, Varint(length) + part);
    ReadVarintFront(length, part);
  }
}
