/**
 Building and decrypting client Initial packets (section 17.2.2 of RFC 9000, section 5.4 of
 RFC 9001), several of them coalesced in one datagram.
 */
module Initial {
  import opened Bytes
  import opened Collections
  import opened Cursors
  import opened Varints
  import opened Frames
  import opened Keys

  const MIN_DATAGRAM := 1200
  const SAMPLE_OFFSET := 4
  const SAMPLE_LENGTH := 16
  const BUILT_PN_LENGTH := 4

  datatype InitialPacket = InitialPacket(version: Uint32, dcid: Octets, scid: Octets, frames: seq<CryptoFrame>)

  /** The walk stops, passes over a packet of known size, or yields an Initial of known size. */
  datatype Outcome =
    | Stop(error: QuicError)
    | Pass(consumed: nat)
    | Got(packet: InitialPacket, consumed: nat)

  /** The clear part of a long header, up to the connection IDs. */
  datatype LongHeader = LongHeader(first: Byte, version: Uint32, dcid: Octets, scid: Octets)

  function ReadLongHeader(s: Src): (r: (Result<LongHeader, QuicError>, Src))
    ensures r.0.Success? ==> |r.1.rest| < |s.rest|
  {
    var (first, s1) := s.ReadU8();
    if s1.bad then (Failure(Truncated), s1)
    else if first < 0x80 || first / 64 % 2 == 0 then (Failure(NotInitial), s1)
    else
      var (version, s2) := s1.ReadU32();
      var (dcidLength, s3) := s2.ReadU8();
      var (dcid, s4) := s3.ReadBytes(dcidLength);
      var (scidLength, s5) := s4.ReadU8();
      var (scid, s6) := s5.ReadBytes(scidLength);
      if s6.bad then (Failure(Truncated), s6) else (Success(LongHeader(first, version, dcid, scid)), s6)
  }

  /** Token length, token and the Length field. */
  function ReadTokenAndLength(s: Src): (r: (nat, Src))
    ensures |r.1.rest| <= |s.rest|
  {
    var (tokenLength, s1) := ReadVarint(s);
    var (_, s2) := s1.ReadBytes(tokenLength);
    ReadVarint(s2)
  }

  function ParseOnePacket(c: Primitives, buf: Octets): Outcome
    requires c.Sound()
  {
    var (header, s1) := ReadLongHeader(Src(buf, false));
    match header
    case Failure(e) => Stop(e)
    case Success(h) =>
      match ParamsFor(h.version)
      case None => Stop(NotInitial)
      case Some(params) => ParseLength(c, params, h, buf, s1)
  }

  /** The part after the connection IDs: where does the packet end, and is it an Initial? */
  function ParseLength(c: Primitives, params: Params, h: LongHeader, buf: Octets, s1: Src): Outcome
    requires c.Sound() && |s1.rest| < |buf|
  {
    var (length, s2) := ReadTokenAndLength(s1);
    var pnOffset := |buf| - |s2.rest|;
    if h.first / 16 % 4 != params.initialType then
      if s2.bad then Stop(Truncated) else Pass(pnOffset + length)
    else if s2.bad || length < 4 then Stop(Malformed)
    else if pnOffset + length > |buf| then Stop(Truncated)
    else if pnOffset + SAMPLE_OFFSET + SAMPLE_LENGTH > |buf| then Stop(Truncated)
    else Unprotect(c, params, h, buf, pnOffset, pnOffset + length)
  }

  function Mask(c: Primitives, hp: Octets, buf: Octets, pnOffset: nat): (mask: Octets)
    requires c.Sound() && pnOffset + SAMPLE_OFFSET + SAMPLE_LENGTH <= |buf|
    ensures |mask| == BLOCK
  {
    c.aes(hp, buf[pnOffset + SAMPLE_OFFSET..pnOffset + SAMPLE_OFFSET + SAMPLE_LENGTH])
  }

  /** The four low bits of the first byte, then up to four packet number bytes, are masked. */
  function UnmaskFirst(first: Byte, mask: Octets): Byte
    requires |mask| == BLOCK
  {
    XorByte(first, mask[0] % 16)
  }

  function UnmaskNumber(bytes: Octets, mask: Octets): (r: Octets)
    requires |bytes| <= 4 && |mask| == BLOCK
    ensures |r| == |bytes|
  {
    seq(|bytes|, i requires 0 <= i < |bytes| => XorByte(bytes[i], mask[1 + i]))
  }

  /** Remove header protection, authenticate and decrypt, then look for CRYPTO frames. */
  function Unprotect(c: Primitives, p: Params, h: LongHeader, buf: Octets, pnOffset: nat, packetEnd: nat): Outcome
    requires c.Sound()
    requires 0 < pnOffset && pnOffset + 4 <= packetEnd <= |buf|
    requires pnOffset + SAMPLE_OFFSET + SAMPLE_LENGTH <= |buf|
  {
    var keys := DeriveClientInitialKeys(c, p, h.dcid);
    var mask := Mask(c, keys.hp, buf, pnOffset);
    var first := UnmaskFirst(h.first, mask);
    var pnLength := first % 4 + 1;
    var number := UnmaskNumber(buf[pnOffset..pnOffset + pnLength], mask);
    var header := [first] + buf[1..pnOffset] + number;
    match Open(c, keys, header, buf[pnOffset + pnLength..packetEnd], FromBigEndian(number))
    case None => Pass(packetEnd)
    case Some(plaintext) =>
      var parsed := FramesFrom(Src(plaintext, false), |plaintext|);
      if parsed.error.Some? then Pass(packetEnd)
      else Got(InitialPacket(h.version, h.dcid, h.scid, parsed.frames), packetEnd)
  }

  function Open(c: Primitives, keys: ClientKeys, header: Octets, ciphertext: Octets, packetNumber: nat): Option<Octets>
    requires |keys.iv| == 12
  {
    if |ciphertext| < OVERHEAD then None
    else c.open(keys.key, Nonce(keys.iv, packetNumber), ciphertext, header)
  }

  /** The packets of a datagram from `offset` on, added to what was found before. */
  function Walk(c: Primitives, datagram: Octets, offset: nat, found: Option<InitialPacket>): Option<InitialPacket>
    requires c.Sound()
    decreases |datagram| - offset
  {
    if offset >= |datagram| then found
    else
      match ParseOnePacket(c, datagram[offset..])
      case Stop(_) => found
      case Pass(n) => if n == 0 then found else Walk(c, datagram, offset + n, found)
      case Got(packet, n) => if n == 0 then found else Walk(c, datagram, offset + n, Some(Joined(found, packet)))
  }

  function Joined(found: Option<InitialPacket>, packet: InitialPacket): InitialPacket {
    match found
    case None => packet
    case Some(first) => first.(frames := first.frames + packet.frames)
  }

  function ParseInitial(c: Primitives, datagram: Octets): Result<InitialPacket, QuicError>
    requires c.Sound()
  {
    if |datagram| < MIN_DATAGRAM then Failure(NotInitial)
    else
      match Walk(c, datagram, 0, None)
      case None => Failure(NotInitial)
      case Some(packet) => Success(packet)
  }

  // --- the printer ---

  datatype BuildError = BadConnectionId | BadSize

  /** The arguments of one packet. */
  datatype Spec = Spec(dcid: Octets, scid: Octets, offset: Uint64, crypto: Octets, size: int)

  /** A slice held in memory is far shorter than 2^48 bytes, and so is any size worth asking for. */
  predicate InMemory(s: Spec) {
    |s.crypto| < 0x1_0000_0000_0000 && s.size < 0x1_0000_0000_0000
  }

  function HeaderLength(s: Spec): nat { 1 + 4 + 1 + |s.dcid| + 1 + |s.scid| + 1 + 2 + BUILT_PN_LENGTH }

  function CryptoFrameBytes(s: Spec): (f: Octets)
    requires InMemory(s)
  {
    Varint(CRYPTO) + (Varint(s.offset) + (Varint(|s.crypto|) + s.crypto))
  }

  function PadLength(s: Spec): (n: nat)
    requires InMemory(s)
  {
    Max(0, Max(s.size, MIN_DATAGRAM) - HeaderLength(s) - OVERHEAD - |CryptoFrameBytes(s)|)
  }

  /** A CRYPTO frame, then PADDING up to the target size. */
  function Payload(s: Spec): Octets
    requires InMemory(s)
  {
    CryptoFrameBytes(s) + Zeros(PadLength(s))
  }

  /** The value of the Length field: packet number, payload and tag. */
  function PacketLength(s: Spec): (n: Uint64)
    requires InMemory(s)
  {
    BUILT_PN_LENGTH + |Payload(s)| + OVERHEAD
  }

  /** Version and connection IDs. */
  function IdBytes(s: Spec): Octets
    requires |s.dcid| <= 20 && |s.scid| <= 20
  {
    [0, 0, 0, 1] + ([|s.dcid|] + (s.dcid + ([|s.scid|] + s.scid)))
  }

  /** An empty token and the Length field. */
  function LengthBytes(s: Spec): Octets
    requires InMemory(s)
  {
    Varint(0) + Varint(PacketLength(s))
  }

  function ClearHeader(s: Spec): (h: Octets)
    requires InMemory(s) && 0 < |s.dcid| <= 20 && |s.scid| <= 20
    ensures |h| > 0
  {
    [0xc3] + IdBytes(s) + LengthBytes(s)
  }

  /** Seal the payload, then mask the header with a sample of the ciphertext. */
  function Sealed(c: Primitives, s: Spec): (r: (Octets, Octets))
    requires c.Sound() && InMemory(s) && 0 < |s.dcid| <= 20 && |s.scid| <= 20
    ensures |r.0| == |Payload(s)| + OVERHEAD && |r.1| == BLOCK
  {
    var keys := DeriveClientInitialKeys(c, ParamsFor(VERSION1).value, s.dcid);
    var ciphertext := c.seal(keys.key, Nonce(keys.iv, 0), Payload(s), ClearHeader(s) + Zeros(BUILT_PN_LENGTH));
    (ciphertext, c.aes(keys.hp, ciphertext[..SAMPLE_LENGTH]))
  }

  function BuildClientInitial(c: Primitives, s: Spec): Result<Octets, BuildError>
    requires c.Sound() && InMemory(s)
  {
    if |s.dcid| == 0 || |s.dcid| > 20 || |s.scid| > 20 then Failure(BadConnectionId)
    else if |Varint(PacketLength(s))| != 2 then Failure(BadSize)
    else
      var header := ClearHeader(s);
      var (ciphertext, mask) := Sealed(c, s);
      Success([UnmaskFirst(header[0], mask)] + header[1..] + UnmaskNumber(Zeros(BUILT_PN_LENGTH), mask) + ciphertext)
  }

  // --- parsing undoes building ---

  /** The arguments a packet can be built from: connection IDs in range and a two-byte Length field. */
  ghost predicate Buildable(s: Spec) {
    InMemory(s) && 0 < |s.dcid| <= 20 && |s.scid| <= 20 && PacketLength(s) < 0x4000
  }

  lemma VarintLength(v: Uint64)
    ensures |Varint(v)| == if v < 0x40 then 1 else if v < 0x4000 then 2 else if v < 0x4000_0000 then 4 else 8
  {
  }

  /** The target size, or what the frame needs when that is more. */
  function DatagramLength(s: Spec): nat
    requires InMemory(s)
  {
    Max(Max(s.size, MIN_DATAGRAM), HeaderLength(s) + |CryptoFrameBytes(s)| + OVERHEAD)
  }

  lemma PaddedLength(s: Spec)
    requires InMemory(s)
    ensures HeaderLength(s) + |Payload(s)| + OVERHEAD == DatagramLength(s)
    ensures PacketLength(s) == DatagramLength(s) - HeaderLength(s) + BUILT_PN_LENGTH
  {
    hide CryptoFrameBytes;
  }

  /**
   Building succeeds exactly for connection IDs in range and a packet whose Length field takes two
   bytes, whatever the offset, and the datagram then has exactly the target size, or the size its
   frame needs when that is more.
   */
  lemma BuildSucceeds(c: Primitives, s: Spec)
    requires c.Sound() && InMemory(s)
    ensures BuildClientInitial(c, s).Success? <==>
              0 < |s.dcid| <= 20 && |s.scid| <= 20 && DatagramLength(s) - HeaderLength(s) + BUILT_PN_LENGTH < 0x4000
    ensures BuildClientInitial(c, s).Success? <==> Buildable(s)
    ensures Buildable(s) ==> |BuildClientInitial(c, s).value| == DatagramLength(s)
  {
    PaddedLength(s);
    VarintLength(PacketLength(s));
    VarintLength(0);
    hide Varint, Xor, DatagramLength, Payload;
    if 0 < |s.dcid| <= 20 && |s.scid| <= 20 {
      PacketNotTiny(s);
    }
  }

  lemma PacketNotTiny(s: Spec)
    requires InMemory(s) && |s.dcid| <= 20 && |s.scid| <= 20
    ensures PacketLength(s) >= 0x40
  {
    hide CryptoFrameBytes;
  }

  // --- an Initial of either version, as the standards lay it out ---

  /** A client Initial to be sealed: any token, any packet number in one to four bytes, any payload. */
  datatype Sealing = Sealing(version: Uint32, dcid: Octets, scid: Octets, token: Octets, number: nat, pnLength: nat, payload: Octets)
  {
    /** Every length fits its field, and the payload is long enough to be sampled (section 5.4.2 of RFC 9001). */
    ghost predicate Fits() {
      && (version == 0x00000001 || version == 0x6b3343cf)
      && |dcid| < 0x100 && |scid| < 0x100 && |token| < VARINT_LIMIT
      && 1 <= pnLength <= 4 && number < Pow256(pnLength)
      && 4 <= pnLength + |payload| < VARINT_LIMIT - OVERHEAD
    }
  }

  /** Version 2 numbers the Initial type 1 (section 3.2 of RFC 9369). */
  function FirstByte(s: Sealing): Byte
    requires 1 <= s.pnLength <= 4
  {
    (if s.version == 0x00000001 then 0xc0 else 0xd0) + s.pnLength - 1
  }

  function VersionBytes(s: Sealing): Octets {
    if s.version == 0x00000001 then [0, 0, 0, 1] else [0x6b, 0x33, 0x43, 0xcf]
  }

  /** The header after its first byte, up to the packet number (section 17.2.2 of RFC 9000). */
  function HeaderTail(s: Sealing): (h: Octets)
    requires |s.dcid| < 0x100 && |s.scid| < 0x100 && |s.token| < VARINT_LIMIT
    requires s.pnLength + |s.payload| < VARINT_LIMIT - OVERHEAD
  {
    VersionBytes(s) + ([|s.dcid|] + (s.dcid + ([|s.scid|] + (s.scid + TokenAndLength(s)))))
  }

  function TokenAndLength(s: Sealing): Octets
    requires |s.token| < VARINT_LIMIT && s.pnLength + |s.payload| < VARINT_LIMIT - OVERHEAD
  {
    Varint(|s.token|) + (s.token + Varint(s.pnLength + |s.payload| + OVERHEAD))
  }

  function PacketKeys(c: Primitives, s: Sealing): (k: ClientKeys)
    requires c.Sound()
    ensures |k.key| == 16 && |k.iv| == 12 && |k.hp| == 16
  {
    if s.version == 0x00000001 then ClientKeysV1(c, s.dcid) else ClientKeysV2(c, s.dcid)
  }

  /** The header before it is masked. */
  function PlainHeader(s: Sealing): Octets
    requires s.Fits()
  {
    [FirstByte(s)] + HeaderTail(s) + BigEndian(s.number, s.pnLength)
  }

  /** The payload sealed under its nonce, with the whole clear header as associated data. */
  function Ciphertext(c: Primitives, s: Sealing): (x: Octets)
    requires c.Sound() && s.Fits()
    ensures |x| == |s.payload| + OVERHEAD
  {
    c.seal(PacketKeys(c, s).key, NonceBytes(PacketKeys(c, s).iv, s.number), s.payload, PlainHeader(s))
  }

  /** Any bytes of the length that sealing the payload gives. */
  ghost predicate Stands(s: Sealing, x: Octets) { s.Fits() && |x| == |s.payload| + OVERHEAD }

  /** The mask comes from the sixteen bytes of ciphertext that start four bytes after the packet number does. */
  function SampledMask(c: Primitives, s: Sealing, x: Octets): (mask: Octets)
    requires c.Sound() && Stands(s, x)
    ensures |mask| == BLOCK
  {
    c.aes(PacketKeys(c, s).hp, x[4 - s.pnLength..20 - s.pnLength])
  }

  /** A packet on the wire around any ciphertext: the low bits of the first byte and the packet number masked. */
  function WireBytes(c: Primitives, s: Sealing, x: Octets): Octets
    requires c.Sound() && Stands(s, x)
  {
    var mask, number := SampledMask(c, s, x), BigEndian(s.number, s.pnLength);
    [XorByte(FirstByte(s), mask[0] % 16)] + HeaderTail(s)
    + seq(s.pnLength, i requires 0 <= i < s.pnLength => XorByte(number[i], mask[1 + i])) + x
  }

  /** The packet around its own payload sealed. */
  function SealedBytes(c: Primitives, s: Sealing): Octets
    requires c.Sound() && s.Fits()
  {
    WireBytes(c, s, Ciphertext(c, s))
  }

  lemma UnmaskNumberTwice(bytes: Octets, mask: Octets)
    requires |bytes| <= 4 && |mask| == BLOCK
    ensures UnmaskNumber(UnmaskNumber(bytes, mask), mask) == bytes
  {
    forall i | 0 <= i < |bytes| ensures UnmaskNumber(UnmaskNumber(bytes, mask), mask)[i] == bytes[i] {
      XorInvolution(bytes[i], mask[1 + i]);
    }
  }

  lemma UnmaskFirstTwice(first: Byte, mask: Octets)
    requires |mask| == BLOCK
    ensures UnmaskFirst(UnmaskFirst(first, mask), mask) == first && UnmaskFirst(first, mask) / 16 == first / 16
  {
    XorInvolution(first, mask[0] % 16);
    XorKeepsHighNibble(first, mask[0] % 16);
  }

  lemma ReadU32Front(a: Byte, b: Byte, d: Byte, e: Byte, back: Octets)
    ensures Src([a, b, d, e] + back, false).ReadU32() == (Be32(a, b, d, e), Src(back, false))
  {
    assert ([a, b, d, e] + back)[4..] == back;
  }

  lemma ReadVersion(s: Sealing, back: Octets)
    requires s.version == 0x00000001 || s.version == 0x6b3343cf
    ensures Src(VersionBytes(s) + back, false).ReadU32() == (s.version, Src(back, false))
  {
    ReadU32Front(0, 0, 0, 1, back);
    ReadU32Front(0x6b, 0x33, 0x43, 0xcf, back);
  }

  /** The header fields one after the other, each followed by the rest. */
  lemma TailLaidOut(s: Sealing, back: Octets)
    requires s.Fits()
    ensures HeaderTail(s) + back ==
            VersionBytes(s) + ([|s.dcid| as Byte] + (s.dcid + ([|s.scid| as Byte] + (s.scid + (TokenAndLength(s) + back)))))
  {
    hide TokenAndLength, VersionBytes;
    var rest := TokenAndLength(s);
    var t5: Octets := s.scid + rest;
    var t4: Octets := [|s.scid|] + t5;
    var t3: Octets := s.dcid + t4;
    var t2: Octets := [|s.dcid|] + t3;
    Assoc(VersionBytes(s), t2, back);
    Assoc([|s.dcid| as Byte], t3, back);
    Assoc(s.dcid, t4, back);
    Assoc([|s.scid| as Byte], t5, back);
    Assoc(s.scid, rest, back);
  }

  lemma ReadIds(first: Byte, s: Sealing, back: Octets)
    requires s.Fits() && first >= 0xc0
    ensures ReadLongHeader(Src([first] + (HeaderTail(s) + back), false))
            == (Success(LongHeader(first, s.version, s.dcid, s.scid)), Src(TokenAndLength(s) + back, false))
  {
    hide HeaderTail, TokenAndLength, VersionBytes, Src.ReadU8, Src.ReadU32, Src.ReadBytes;
    var r6 := TokenAndLength(s) + back;
    var r5 := s.scid + r6;
    var r4 := [|s.scid| as Byte] + r5;
    var r3 := s.dcid + r4;
    var r2 := [|s.dcid| as Byte] + r3;
    TailLaidOut(s, back);
    ReadU8Front(first, HeaderTail(s) + back);
    ReadVersion(s, r2);
    ReadU8Front(|s.dcid|, r3);
    ReadBytesFront(s.dcid, r4);
    ReadU8Front(|s.scid|, r5);
    ReadBytesFront(s.scid, r6);
  }

  lemma ReadLength(s: Sealing, back: Octets)
    requires s.Fits()
    ensures ReadTokenAndLength(Src(TokenAndLength(s) + back, false)) == (s.pnLength + |s.payload| + OVERHEAD, Src(back, false))
  {
    hide Varint, ReadVarint, Src.ReadBytes;
    var length := Varint(s.pnLength + |s.payload| + OVERHEAD);
    Assoc(Varint(|s.token|), s.token + length, back);
    Assoc(s.token, length, back);
    ReadVarintFront(|s.token|, s.token + (length + back));
    ReadBytesFront(s.token, length + back);
    ReadVarintFront(s.pnLength + |s.payload| + OVERHEAD, back);
  }

  lemma Slices(first: Byte, tail: Octets, number: Octets, ciphertext: Octets, back: Octets)
    requires 1 <= |number| <= 4 && |number| + |ciphertext| >= 4 + SAMPLE_LENGTH
    ensures
      var n := 1 + |tail|;
      var buf := ([first] + tail) + (number + (ciphertext + back));
      && |buf| >= n + SAMPLE_OFFSET + SAMPLE_LENGTH && |buf| >= n + |number| + |ciphertext|
      && buf[n + SAMPLE_OFFSET..n + SAMPLE_OFFSET + SAMPLE_LENGTH] == ciphertext[4 - |number|..20 - |number|]
      && buf[n..n + |number|] == number && buf[1..n] == tail
      && buf[n + |number|..n + |number| + |ciphertext|] == ciphertext
  {
    var front, rest := [first] + tail, number + (ciphertext + back);
    assert (front + rest)[..|front|] == front;
    assert (front + rest)[|front|..] == rest;
  }

  /** What the sensor makes of a packet of known length, given what opening it came to. */
  function OutcomeOf(s: Sealing, plain: Option<Octets>, end: nat): Outcome {
    if plain.None? then Pass(end)
    else
      var parsed := FramesFrom(Src(plain.value, false), |plain.value|);
      if parsed.error.Some? then Pass(end) else Got(InitialPacket(s.version, s.dcid, s.scid, parsed.frames), end)
  }

  function Unsealed(c: Primitives, s: Sealing, x: Octets): Option<Octets>
    requires c.Sound() && s.Fits()
  {
    c.open(PacketKeys(c, s).key, NonceBytes(PacketKeys(c, s).iv, s.number), x, PlainHeader(s))
  }

  lemma WireShape(c: Primitives, s: Sealing, x: Octets, back: Octets)
    requires c.Sound() && Stands(s, x)
    ensures
      var mask, number := SampledMask(c, s, x), BigEndian(s.number, s.pnLength);
      WireBytes(c, s, x) + back ==
      ([UnmaskFirst(FirstByte(s), mask)] + HeaderTail(s)) + (UnmaskNumber(number, mask) + (x + back))
  {
    hide HeaderTail, SampledMask, BigEndian, XorByte;
    var mask, number := SampledMask(c, s, x), BigEndian(s.number, s.pnLength);
    var front, masked := [UnmaskFirst(FirstByte(s), mask)] + HeaderTail(s), UnmaskNumber(number, mask);
    assert WireBytes(c, s, x) == front + masked + x;
    Assoc(front + masked, x, back);
    Assoc(front, masked, x + back);
  }

  lemma FirstByteHolds(s: Sealing, mask: Octets)
    requires s.Fits() && |mask| == BLOCK
    ensures
      var first := UnmaskFirst(FirstByte(s), mask);
      && UnmaskFirst(first, mask) == FirstByte(s) && first / 16 == FirstByte(s) / 16 && first >= 0xc0
      && FirstByte(s) % 4 + 1 == s.pnLength && FirstByte(s) / 16 % 4 == (if s.version == 0x00000001 then 0 else 1)
  {
    hide UnmaskFirst, FirstByte;
    UnmaskFirstTwice(FirstByte(s), mask);
    FirstByteIs(s);
  }

  lemma FirstByteIs(s: Sealing)
    requires s.Fits()
    ensures var b := FirstByte(s);
            b / 16 == (if s.version == 0x00000001 then 12 else 13) && b % 4 + 1 == s.pnLength
  {
    hide Pow256;
    var high := if s.version == 0x00000001 then 12 else 13;
    assert FirstByte(s) as int == 16 * high + (s.pnLength - 1);
  }

  /** The keys and the nonce of the parser are those of the standards. */
  lemma SealedKeys(c: Primitives, s: Sealing)
    requires c.Sound() && s.Fits()
    ensures ParamsFor(s.version).Some? && ParamsFor(s.version).value.initialType == (if s.version == 0x00000001 then 0 else 1)
    ensures DeriveClientInitialKeys(c, ParamsFor(s.version).value, s.dcid) == PacketKeys(c, s)
    ensures Nonce(PacketKeys(c, s).iv, s.number) == NonceBytes(PacketKeys(c, s).iv, s.number)
  {
    hide ClientKeysV1, ClientKeysV2, DeriveClientInitialKeys, ParamsFor, Nonce;
    KeysExact(c, s.version, s.dcid);
    NonceIs(PacketKeys(c, s).iv, s.number);
  }

  lemma WireLength(c: Primitives, s: Sealing, x: Octets)
    requires c.Sound() && Stands(s, x)
    ensures |WireBytes(c, s, x)| == 1 + |HeaderTail(s)| + s.pnLength + |s.payload| + OVERHEAD
  {
    hide HeaderTail, SampledMask, BigEndian, XorByte, FirstByte, Pow256;
  }

  /** The stretches of the datagram that the parser reads. */
  lemma WireSlices(c: Primitives, s: Sealing, x: Octets, back: Octets)
    requires c.Sound() && Stands(s, x)
    ensures
      var buf, mask := WireBytes(c, s, x) + back, SampledMask(c, s, x);
      var n, end := 1 + |HeaderTail(s)|, |WireBytes(c, s, x)|;
      && end == n + s.pnLength + |s.payload| + OVERHEAD && n + 4 <= end <= |buf| && |buf| >= n + SAMPLE_OFFSET + SAMPLE_LENGTH
      && Mask(c, PacketKeys(c, s).hp, buf, n) == mask
      && buf[n..n + s.pnLength] == UnmaskNumber(BigEndian(s.number, s.pnLength), mask)
      && buf[1..n] == HeaderTail(s) && buf[n + s.pnLength..end] == x
  {
    hide UnmaskNumber, UnmaskFirst, HeaderTail, FirstByte, BigEndian, PacketKeys, WireBytes, Pow256;
    var mask := SampledMask(c, s, x);
    WireShape(c, s, x, back);
    WireLength(c, s, x);
    Slices(UnmaskFirst(FirstByte(s), mask), HeaderTail(s), UnmaskNumber(BigEndian(s.number, s.pnLength), mask), x, back);
  }

  lemma WireOpens(c: Primitives, s: Sealing, x: Octets)
    requires c.Sound() && Stands(s, x)
    ensures
      var header := [FirstByte(s)] + HeaderTail(s) + BigEndian(s.number, s.pnLength);
      Open(c, PacketKeys(c, s), header, x, s.number) == Unsealed(c, s, x)
  {
    hide HeaderTail, FirstByte, BigEndian, Pow256, PacketKeys, Nonce, NonceBytes, ParamsFor, DeriveClientInitialKeys;
    SealedKeys(c, s);
  }

  lemma UnprotectWire(c: Primitives, s: Sealing, x: Octets, back: Octets)
    requires c.Sound() && Stands(s, x)
    ensures
      var buf, first := WireBytes(c, s, x) + back, UnmaskFirst(FirstByte(s), SampledMask(c, s, x));
      var n, end := 1 + |HeaderTail(s)|, |WireBytes(c, s, x)|;
      && |buf| >= n + SAMPLE_OFFSET + SAMPLE_LENGTH && n + 4 <= end <= |buf| && end == n + s.pnLength + |s.payload| + OVERHEAD
      && ParamsFor(s.version).Some?
      && Unprotect(c, ParamsFor(s.version).value, LongHeader(first, s.version, s.dcid, s.scid), buf, n, end)
         == OutcomeOf(s, Unsealed(c, s, x), end)
  {
    hide FramesFrom, DeriveClientInitialKeys, UnmaskNumber, UnmaskFirst, HeaderTail, FirstByte, BigEndian;
    hide FromBigEndian, Nonce, Unsealed;
    hide PacketKeys, WireBytes, ParamsFor, NonceBytes, Pow256, Mask, SampledMask, Open, Primitives.Sound;
    WireSlices(c, s, x, back);
    FirstByteHolds(s, SampledMask(c, s, x));
    UnmaskNumberTwice(BigEndian(s.number, s.pnLength), SampledMask(c, s, x));
    BigEndianInverse(s.number, s.pnLength);
    SealedKeys(c, s);
    WireOpens(c, s, x);
  }

  /**
   A packet laid out and masked as the standards say is measured exactly whatever its ciphertext, and what
   becomes of it is decided by opening that under the keys of the equations: passed over when it does not open.
   */
  lemma WireParses(c: Primitives, s: Sealing, x: Octets, back: Octets)
    requires c.Sound() && Stands(s, x)
    ensures ParseOnePacket(c, WireBytes(c, s, x) + back) == OutcomeOf(s, Unsealed(c, s, x), |WireBytes(c, s, x)|)
  {
    hide FramesFrom, DeriveClientInitialKeys, UnmaskNumber, UnmaskFirst, HeaderTail, FirstByte, TokenAndLength;
    hide Unprotect, OutcomeOf, Unsealed;
    hide ReadLongHeader, ReadTokenAndLength, WireBytes, SampledMask, BigEndian, Pow256, ParamsFor;
    var mask, number := SampledMask(c, s, x), BigEndian(s.number, s.pnLength);
    var first, rest := UnmaskFirst(FirstByte(s), mask), UnmaskNumber(number, mask) + (x + back);
    WireShape(c, s, x, back);
    Assoc([first], HeaderTail(s), rest);
    FirstByteHolds(s, mask);
    ReadIds(first, s, rest);
    ReadLength(s, rest);
    SealedKeys(c, s);
    UnprotectWire(c, s, x, back);
  }

  /**
   A client Initial of either version, sealed and protected as its standard says under the keys of its
   equations, is measured exactly and yields its frames, whatever follows it in the datagram.
   */
  lemma SealedParses(c: Primitives, s: Sealing, back: Octets)
    requires c.Sound() && s.Fits()
    ensures ParseOnePacket(c, SealedBytes(c, s) + back) == OutcomeOf(s, Some(s.payload), |SealedBytes(c, s)|)
  {
    hide ParseOnePacket, WireBytes, OutcomeOf, PlainHeader, PacketKeys, NonceBytes;
    WireParses(c, s, Ciphertext(c, s), back);
  }

  /** With frames of its own for a payload, it yields exactly their CRYPTO frames in order. */
  lemma SealedFramesParse(c: Primitives, s: Sealing, fs: seq<Frame>, back: Octets)
    requires c.Sound() && s.Fits() && (forall f | f in fs :: Encodable(f)) && s.payload == Encode(fs)
    ensures ParseOnePacket(c, SealedBytes(c, s) + back)
            == Got(InitialPacket(s.version, s.dcid, s.scid, CryptoOf(fs)), |SealedBytes(c, s)|)
  {
    hide ParseOnePacket, SealedBytes, FramesFrom, Encode, CryptoOf;
    SealedParses(c, s, back);
    FramesRoundTrip(fs, [], |s.payload|);
    NothingLeft(|s.payload|, CryptoOf(fs));
    assert Encode(fs) + [] == Encode(fs);
  }

  lemma NothingLeft(limit: nat, fs: seq<CryptoFrame>)
    ensures Prepend(fs, FramesFrom(Src([], false), limit)) == Parsed(fs, None)
  {
    assert fs + [] == fs;
  }

  /** Alone in a datagram of the least size it is what the datagram parses to. */
  lemma SealedDatagramParses(c: Primitives, s: Sealing, fs: seq<Frame>)
    requires c.Sound() && s.Fits() && (forall f | f in fs :: Encodable(f)) && s.payload == Encode(fs)
    requires |SealedBytes(c, s)| >= 1200
    ensures ParseInitial(c, SealedBytes(c, s)) == Success(InitialPacket(s.version, s.dcid, s.scid, CryptoOf(fs)))
  {
    hide ParseOnePacket, SealedBytes, Encode, CryptoOf, Encodable;
    var d, packet := SealedBytes(c, s), InitialPacket(s.version, s.dcid, s.scid, CryptoOf(fs));
    SealedFramesParse(c, s, fs, []);
    assert d + [] == d && d[0..] == d;
    assert Walk(c, d, |d|, Some(packet)) == Some(packet);
    assert Walk(c, d, 0, None) == Walk(c, d, |d|, Some(packet));
  }

  /** A packet on the wire: its fields and its ciphertext. */
  datatype Piece = Piece(s: Sealing, x: Octets)

  ghost predicate AllStand(ps: seq<Piece>) { forall p | p in ps :: Stands(p.s, p.x) }

  function Coalesced(c: Primitives, ps: seq<Piece>): Octets
    requires c.Sound() && AllStand(ps)
  {
    if ps == [] then [] else WireBytes(c, ps[0].s, ps[0].x) + Coalesced(c, ps[1..])
  }

  /** One more packet, joined to what was found when it opens. */
  function Taken(c: Primitives, p: Piece, found: Option<InitialPacket>): Option<InitialPacket>
    requires c.Sound() && Stands(p.s, p.x)
  {
    var o := OutcomeOf(p.s, Unsealed(c, p.s, p.x), 0);
    if o.Got? then Some(Joined(found, o.packet)) else found
  }

  /** What the packets that open hold, joined under the identity of the first of them. */
  function Recovered(c: Primitives, ps: seq<Piece>, found: Option<InitialPacket>): Option<InitialPacket>
    requires c.Sound() && AllStand(ps)
  {
    if ps == [] then found else Recovered(c, ps[1..], Taken(c, ps[0], found))
  }

  lemma WalkOne(c: Primitives, d: Octets, at: nat, p: Piece, back: Octets, found: Option<InitialPacket>)
    requires c.Sound() && Stands(p.s, p.x) && at <= |d| && d[at..] == WireBytes(c, p.s, p.x) + back
    ensures Walk(c, d, at, found) == Walk(c, d, at + |WireBytes(c, p.s, p.x)|, Taken(c, p, found))
  {
    hide ParseOnePacket, WireBytes, Unsealed, HeaderTail, FramesFrom, Pow256, Primitives.Sound;
    WireLength(c, p.s, p.x);
    WireParses(c, p.s, p.x, back);
  }

  lemma {:induction false} WalkCoalesced(c: Primitives, pre: Octets, ps: seq<Piece>, found: Option<InitialPacket>)
    requires c.Sound() && AllStand(ps)
    ensures Walk(c, pre + Coalesced(c, ps), |pre|, found) == Recovered(c, ps, found)
    decreases |ps|
  {
    hide ParseOnePacket, WireBytes, Stands, Taken, OutcomeOf, HeaderTail, Primitives.Sound;
    if ps == [] {
    } else {
      var p, back := ps[0], Coalesced(c, ps[1..]);
      var packet := WireBytes(c, p.s, p.x);
      var d := pre + (packet + back);
      assert d[|pre|..] == packet + back;
      assert d == (pre + packet) + back;
      WalkOne(c, d, |pre|, p, back, found);
      WalkCoalesced(c, pre + packet, ps[1..], Taken(c, p, found));
    }
  }

  /**
   Any Initials of either version in one datagram: it parses to the frames of exactly those that open, in order,
   and those that do not open are passed over; when none does, it is no Initial.
   */
  lemma CoalescedParses(c: Primitives, ps: seq<Piece>)
    requires c.Sound() && AllStand(ps) && |Coalesced(c, ps)| >= 1200
    ensures ParseInitial(c, Coalesced(c, ps))
            == if Recovered(c, ps, None).Some? then Success(Recovered(c, ps, None).value) else Failure(NotInitial)
  {
    hide ParseOnePacket, WireBytes, Unsealed, Stands, Recovered, Coalesced, Primitives.Sound;
    WalkCoalesced(c, [], ps, None);
    assert [] + Coalesced(c, ps) == Coalesced(c, ps);
  }

  /** Less than 1200 bytes are not looked into. */
  lemma ShortIgnored(c: Primitives, datagram: Octets)
    requires c.Sound() && |datagram| < 1200
    ensures ParseInitial(c, datagram) == Failure(NotInitial)
  {
  }

  /** A packet of another type of a known version, laid out like an Initial, is measured and passed over. */
  lemma OtherTypePassed(c: Primitives, s: Sealing, first: Byte, rest: Octets)
    requires c.Sound() && s.Fits() && first >= 0xc0 && first / 16 % 4 != (if s.version == 0x00000001 then 0 else 1)
    ensures ParseOnePacket(c, [first] + (HeaderTail(s) + rest))
            == Pass(1 + |HeaderTail(s)| + s.pnLength + |s.payload| + OVERHEAD)
  {
    hide HeaderTail, TokenAndLength, Unprotect, ReadLongHeader, ReadTokenAndLength, ParamsFor, DeriveClientInitialKeys;
    ReadIds(first, s, rest);
    ReadLength(s, rest);
    SealedKeys(c, s);
  }

  /** A short header, a cleared fixed bit or an unknown version ends the walk. */
  lemma ForeignStops(c: Primitives, buf: Octets)
    requires c.Sound() && buf != []
    ensures buf[0] < 0xc0 ==> ParseOnePacket(c, buf) == Stop(NotInitial)
    ensures |buf| >= 5 && Be32(buf[1], buf[2], buf[3], buf[4]) !in {0x00000001, 0x6b3343cf} ==> ParseOnePacket(c, buf).Stop?
  {
    hide ReadTokenAndLength, Unprotect, DeriveClientInitialKeys, ParseLength, Be32;
    VersionRead(buf);
    hide ReadLongHeader;
  }

  lemma VersionRead(buf: Octets)
    requires buf != []
    ensures var header := ReadLongHeader(Src(buf, false)).0;
            && (buf[0] < 0xc0 ==> header == Failure(NotInitial))
            && (header.Success? && |buf| >= 5 ==> header.value.version == Be32(buf[1], buf[2], buf[3], buf[4]))
  {
    hide Be32;
    if |buf| >= 5 {
      var rest := buf[1..];
      assert rest[0] == buf[1] && rest[1] == buf[2] && rest[2] == buf[3] && rest[3] == buf[4];
    }
  }

  lemma {:induction false} ZerosArePadding(n: nat, limit: nat)
    ensures FramesFrom(Src(Zeros(n), false), limit) == Parsed([], None)
  {
    hide ReadVarint, SkipAck, ReadCrypto;
    if n > 0 {
      assert Varint(PADDING) == [0];
      assert Zeros(n) == Varint(PADDING) + Zeros(n - 1);
      ReadVarintFront(PADDING, Zeros(n - 1));
      ZerosArePadding(n - 1, limit);
    }
  }

  /** What the sensor makes of one built payload: its frame, or a refusal of the frame's offset. */
  function Accepted(s: Spec): Parsed {
    if s.offset <= MAX_CRYPTO_BYTES then Parsed([CryptoFrame(s.offset, s.crypto)], None) else Parsed([], Some(Malformed))
  }

  lemma PayloadFrames(s: Spec)
    requires Buildable(s) && s.offset < VARINT_LIMIT
    ensures FramesFrom(Src(Payload(s), false), |Payload(s)|) == Accepted(s)
  {
    hide Varint, FramesFrom, PadLength, CryptoBody;
    var pads := Zeros(PadLength(s));
    if s.offset <= MAX_CRYPTO_BYTES {
      var f := Crypto(CryptoFrame(s.offset, s.crypto));
      assert EncodeFrame(f) == CryptoFrameBytes(s) by { CryptoBytes(s); }
      OneFrame(f, pads, |Payload(s)|);
      ZerosArePadding(PadLength(s), |Payload(s)|);
      assert CryptoOf([f]) == [f.frame];
    } else {
      CryptoBytes(s);
      SkipVarintFront(CRYPTO, CryptoBody(s.offset, s.crypto), pads);
      ReadCryptoFront(s.offset, s.crypto, pads);
      RefusedFrame(Src(Payload(s), false), Src(CryptoBody(s.offset, s.crypto) + pads, false), |Payload(s)|);
    }
  }

  lemma CryptoBytes(s: Spec)
    requires Buildable(s) && s.offset < VARINT_LIMIT
    ensures CryptoFrameBytes(s) == Varint(CRYPTO) + CryptoBody(s.offset, s.crypto)
  {
    hide Varint;
  }

  lemma RefusedFrame(s: Src, body: Src, limit: nat)
    requires !s.bad && ReadVarint(s) == (CRYPTO, body) && s.rest != [] && ReadCrypto(body).0 == Failure(Malformed)
    ensures FramesFrom(s, limit) == Parsed([], Some(Malformed))
  {
  }

  // --- one packet, then a whole datagram ---

  function Built(c: Primitives, s: Spec): Octets
    requires c.Sound() && Buildable(s)
  {
    BuildSucceeds(c, s);
    BuildClientInitial(c, s).value
  }

  function PacketOf(s: Spec): InitialPacket {
    InitialPacket(VERSION1, s.dcid, s.scid, Accepted(s).frames)
  }

  /** What the builder writes: version 1, no token, packet number zero in four bytes. */
  function SealingOf(s: Spec): Sealing
    requires InMemory(s)
  {
    Sealing(0x00000001, s.dcid, s.scid, [], 0, BUILT_PN_LENGTH, Payload(s))
  }

  lemma BuiltHeader(s: Spec)
    requires Buildable(s)
    ensures SealingOf(s).Fits()
    ensures ClearHeader(s) == [FirstByte(SealingOf(s))] + HeaderTail(SealingOf(s)) && FirstByte(SealingOf(s)) == 0xc3
  {
    hide Varint, Payload;
    var t, k := SealingOf(s), LengthBytes(s);
    assert Varint(0) + ([] + Varint(PacketLength(s))) == k;
    var ids: Octets := [|s.scid|] + s.scid;
    Assoc([|s.scid| as Byte], s.scid, k);
    Assoc(s.dcid, ids, k);
    Assoc([|s.dcid| as Byte], s.dcid + ids, k);
    Assoc([0, 0, 0, 1], [|s.dcid| as Byte] + (s.dcid + ids), k);
    Assoc([0xc3], IdBytes(s), k);
    assert Pow256(4) > 0;
  }

  /** The builder writes the sealed packet of its arguments. */
  lemma BuiltIsSealed(c: Primitives, s: Spec)
    requires c.Sound() && Buildable(s)
    ensures SealingOf(s).Fits() && Built(c, s) == SealedBytes(c, SealingOf(s))
  {
    hide Varint, DeriveClientInitialKeys, Nonce, NonceBytes, PacketKeys, XorByte, IdBytes, LengthBytes, Payload;
    hide HeaderTail, FirstByte, ParamsFor;
    hide ClearHeader, Zeros, BigEndian;
    var t := SealingOf(s);
    BuildSucceeds(c, s);
    BuiltHeader(s);
    SealedKeys(c, t);
    ZeroNumber();
    assert SealedBytes(c, t) == Built(c, s) by {
      assert Ciphertext(c, t) == Sealed(c, s).0;
      assert SampledMask(c, t, Ciphertext(c, t)) == Sealed(c, s).1;
    }
  }

  lemma ZeroNumber()
    ensures BigEndian(0, BUILT_PN_LENGTH) == Zeros(BUILT_PN_LENGTH)
  {
    assert BigEndian(0, 2) == [0, 0] == Zeros(2);
  }

  /** A built packet, whatever follows it in the datagram, is measured exactly and decrypted. */
  lemma OnePacket(c: Primitives, s: Spec, back: Octets)
    requires c.Sound() && Buildable(s) && s.offset < VARINT_LIMIT
    ensures ParseOnePacket(c, Built(c, s) + back)
            == if s.offset <= MAX_CRYPTO_BYTES then Got(PacketOf(s), |Built(c, s)|) else Pass(|Built(c, s)|)
  {
    hide FramesFrom, Payload, ParseOnePacket, Built, SealedBytes;
    BuiltIsSealed(c, s);
    SealedParses(c, SealingOf(s), back);
    PayloadFrames(s);
  }

  /** Packets coalesced into one datagram. */
  function Datagram(c: Primitives, specs: seq<Spec>): (d: Octets)
    requires c.Sound() && forall s | s in specs :: Buildable(s)
  {
    if specs == [] then [] else Built(c, specs[0]) + Datagram(c, specs[1..])
  }

  /** The packets whose offset the sensor accepts, joined under the first one's identity. */
  function JoinAccepted(specs: seq<Spec>, found: Option<InitialPacket>): Option<InitialPacket> {
    if specs == [] then found
    else if specs[0].offset <= MAX_CRYPTO_BYTES then JoinAccepted(specs[1..], Some(Joined(found, PacketOf(specs[0]))))
    else JoinAccepted(specs[1..], found)
  }

  lemma {:induction false} WalkBuilt(c: Primitives, pre: Octets, specs: seq<Spec>, found: Option<InitialPacket>)
    requires c.Sound() && forall s | s in specs :: Buildable(s) && s.offset < VARINT_LIMIT
    ensures Walk(c, pre + Datagram(c, specs), |pre|, found) == JoinAccepted(specs, found)
    decreases |specs|
  {
    hide ParseOnePacket, Built, Buildable;
    if specs == [] {
    } else {
      var s, back := specs[0], Datagram(c, specs[1..]);
      var packet := Built(c, s);
      var d := pre + (packet + back);
      assert d[|pre|..] == packet + back;
      assert d == (pre + packet) + back;
      BuiltNonEmpty(c, s);
      OnePacket(c, s, back);
      WalkBuilt(c, pre + packet, specs[1..], if s.offset <= MAX_CRYPTO_BYTES then Some(Joined(found, PacketOf(s))) else found);
    }
  }

  lemma BuiltNonEmpty(c: Primitives, s: Spec)
    requires c.Sound() && Buildable(s)
    ensures |Built(c, s)| >= MIN_DATAGRAM
  {
    BuildSucceeds(c, s);
  }

  /** The fragments the sensor accepts, in the order they were built. */
  function AcceptedFrames(specs: seq<Spec>): seq<CryptoFrame> {
    if specs == [] then [] else Accepted(specs[0]).frames + AcceptedFrames(specs[1..])
  }

  lemma {:induction false} JoinedFrames(specs: seq<Spec>, first: InitialPacket)
    ensures JoinAccepted(specs, Some(first)) == Some(first.(frames := first.frames + AcceptedFrames(specs)))
    decreases |specs|
  {
    if specs == [] {
      assert first.frames + [] == first.frames;
    } else {
      var next := if specs[0].offset <= MAX_CRYPTO_BYTES then Joined(Some(first), PacketOf(specs[0])) else first;
      JoinedFrames(specs[1..], next);
      Assoc(first.frames, Accepted(specs[0]).frames, AcceptedFrames(specs[1..]));
      assert [] + AcceptedFrames(specs[1..]) == AcceptedFrames(specs[1..]);
    }
  }

  /**
   Parsing a datagram of built Initials returns the first one's connection IDs and exactly their
   (offset, data) fragments in order: padding, masking, packet number and Length field cancel out
   for any mask function and any AEAD that inverts. Packets after the first may carry an offset
   past the sensor's bound; those are measured and left out.
   */
  lemma DatagramRoundTrip(c: Primitives, specs: seq<Spec>)
    requires c.Sound() && specs != [] && forall s | s in specs :: Buildable(s) && s.offset < VARINT_LIMIT
    requires specs[0].offset <= MAX_CRYPTO_BYTES
    ensures ParseInitial(c, Datagram(c, specs))
            == Success(InitialPacket(VERSION1, specs[0].dcid, specs[0].scid, AcceptedFrames(specs)))
  {
    hide Built, Buildable, ParseOnePacket;
    BuiltNonEmpty(c, specs[0]);
    assert [] + Datagram(c, specs) == Datagram(c, specs);
    WalkBuilt(c, [], specs, None);
    JoinedFrames(specs[1..], PacketOf(specs[0]));
  }

  /**
   For a single datagram the round trip holds exactly when the offset is within the bound the
   sensor accepts.
   */
  lemma RoundTripExactly(c: Primitives, s: Spec)
    requires c.Sound() && Buildable(s)
    ensures ParseInitial(c, Built(c, s)) == Success(InitialPacket(VERSION1, s.dcid, s.scid, [CryptoFrame(s.offset, s.crypto)]))
            <==> s.offset <= MAX_CRYPTO_BYTES
  {
    hide Built, Buildable, ParseOnePacket;
    if s.offset <= MAX_CRYPTO_BYTES {
      assert Datagram(c, [s]) == Built(c, s);
      DatagramRoundTrip(c, [s]);
      assert AcceptedFrames([s]) == [CryptoFrame(s.offset, s.crypto)];
    } else {
      WalkWithinBound(c, Built(c, s), 0, None);
    }
  }

  ghost predicate WithinBound(p: Option<InitialPacket>) {
    p.Some? ==> forall f | f in p.value.frames :: f.offset <= MAX_CRYPTO_BYTES && |f.data| <= MAX_CRYPTO_BYTES
  }

  /** Whatever the datagram, no fragment past the bound is ever reported. */
  lemma {:induction false} WalkWithinBound(c: Primitives, datagram: Octets, offset: nat, found: Option<InitialPacket>)
    requires c.Sound() && WithinBound(found)
    ensures WithinBound(Walk(c, datagram, offset, found))
    decreases |datagram| - offset
  {
    hide ParseOnePacket;
    if offset < |datagram| {
      PacketWithinBound(c, datagram[offset..]);
      match ParseOnePacket(c, datagram[offset..]) {
        case Stop(_) =>
        case Pass(n) =>
          if n > 0 {
            WalkWithinBound(c, datagram, offset + n, found);
          }
        case Got(packet, n) =>
          if n > 0 {
            WalkWithinBound(c, datagram, offset + n, Some(Joined(found, packet)));
          }
      }
    }
  }

  lemma PacketWithinBound(c: Primitives, buf: Octets)
    requires c.Sound()
    ensures var o := ParseOnePacket(c, buf); o.Got? ==> WithinBound(Some(o.packet))
  {
    hide ReadLongHeader, ReadTokenAndLength, ReadVarint, Unprotect;
    var (header, s1) := ReadLongHeader(Src(buf, false));
    if header.Success? && ParamsFor(header.value.version).Some? {
      var (length, s2) := ReadTokenAndLength(s1);
      var pnOffset := |buf| - |s2.rest|;
      if 4 <= length && pnOffset + length <= |buf| && pnOffset + SAMPLE_OFFSET + SAMPLE_LENGTH <= |buf| {
        UnprotectWithinBound(c, ParamsFor(header.value.version).value, header.value, buf, pnOffset, pnOffset + length);
      }
    }
  }

  lemma UnprotectWithinBound(c: Primitives, p: Params, h: LongHeader, buf: Octets, pnOffset: nat, packetEnd: nat)
    requires c.Sound()
    requires 0 < pnOffset && pnOffset + 4 <= packetEnd <= |buf|
    requires pnOffset + SAMPLE_OFFSET + SAMPLE_LENGTH <= |buf|
    ensures var o := Unprotect(c, p, h, buf, pnOffset, packetEnd); o.Got? ==> WithinBound(Some(o.packet))
  {
    hide FramesFrom, Mask, UnmaskFirst, UnmaskNumber, DeriveClientInitialKeys, Open;
    forall plaintext: Octets
      ensures forall f | f in FramesFrom(Src(plaintext, false), |plaintext|).frames ::
                f.offset <= MAX_CRYPTO_BYTES && |f.data| <= MAX_CRYPTO_BYTES
    {
      FramesWithinBound(Src(plaintext, false), |plaintext|);
    }
  }

  // --- the parser and the printer as they run ---

  method ReadLongHeaderFrom(r: Cursor) returns (h: Result<LongHeader, QuicError>)
    requires r.Valid()
    modifies r
    ensures r.Valid() && (h, r.View()) == ReadLongHeader(old(r.View()))
  {
    var first := r.U8();
    if r.bad {
      return Failure(Truncated);
    }
    if first < 0x80 || first / 64 % 2 == 0 {
      return Failure(NotInitial); // short headers carry no length and never an Initial
    }
    var version := r.U32();
    var dcidLength := r.U8();
    var dcid := r.Bytes(dcidLength);
    var scidLength := r.U8();
    var scid := r.Bytes(scidLength);
    if r.bad {
      return Failure(Truncated);
    }
    return Success(LongHeader(first, version, dcid, scid));
  }

  method ReadTokenAndLengthFrom(r: Cursor) returns (length: nat)
    requires r.Valid()
    modifies r
    ensures r.Valid() && (length, r.View()) == ReadTokenAndLength(old(r.View()))
  {
    hide ReadVarint;
    var tokenLength := ReadVarintFrom(r);
    r.Skip(tokenLength);
    length := ReadVarintFrom(r);
  }

  method ParseLengthFrom(c: Primitives, params: Params, h: LongHeader, r: Cursor) returns (o: Outcome)
    requires c.Sound() && r.Valid() && r.Remaining() < |r.b|
    modifies r
    ensures o == ParseLength(c, params, h, r.b, old(r.View()))
  {
    hide ReadTokenAndLength, Unprotect;
    var buf := r.b;
    var length := ReadTokenAndLengthFrom(r);
    if h.first / 16 % 4 != params.initialType {
      return if r.bad then Stop(Truncated) else Pass(r.pos + length);
    }
    if r.bad || length < 4 {
      return Stop(Malformed);
    }
    var pnOffset := r.pos;
    var packetEnd := pnOffset + length;
    if packetEnd > |buf| || pnOffset + SAMPLE_OFFSET + SAMPLE_LENGTH > |buf| {
      return Stop(Truncated);
    }
    o := UnprotectPacket(c, params, h, buf, pnOffset, packetEnd);
  }

  method ParsePacketAt(c: Primitives, datagram: Octets, off: nat) returns (o: Outcome)
    requires c.Sound() && off <= |datagram|
    ensures o == ParseOnePacket(c, datagram[off..])
  {
    hide ReadLongHeader, ParseLength;
    var r := new Cursor(datagram[off..]);
    var header := ReadLongHeaderFrom(r);
    if header.Failure? {
      return Stop(header.error);
    }
    var params := ParamsFor(header.value.version);
    if params.None? {
      return Stop(NotInitial);
    }
    o := ParseLengthFrom(c, params.value, header.value, r);
  }

  method UnmaskNumberBytes(buf: Octets, pnOffset: nat, pnLength: nat, mask: Octets) returns (number: Octets)
    requires pnLength <= 4 && pnOffset + pnLength <= |buf| && |mask| == BLOCK
    ensures number == UnmaskNumber(buf[pnOffset..pnOffset + pnLength], mask)
  {
    hide Xor;
    number := [];
    var i := 0;
    while i < pnLength
      invariant 0 <= i <= pnLength && |number| == i
      invariant forall k | 0 <= k < i :: number[k] == XorByte(buf[pnOffset + k], mask[1 + k])
    {
      number := number + [XorByte(buf[pnOffset + i], mask[1 + i])];
      i := i + 1;
    }
  }

  method UnprotectPacket(c: Primitives, p: Params, h: LongHeader, buf: Octets, pnOffset: nat, packetEnd: nat)
    returns (o: Outcome)
    requires c.Sound()
    requires 0 < pnOffset && pnOffset + 4 <= packetEnd <= |buf|
    requires pnOffset + SAMPLE_OFFSET + SAMPLE_LENGTH <= |buf|
    ensures o == Unprotect(c, p, h, buf, pnOffset, packetEnd)
  {
    hide FramesFrom, DeriveClientInitialKeys, Xor, XorByte, UnmaskNumber, FromBigEndian, Open;
    var keys := DeriveClientInitialKeys(c, p, h.dcid);
    var mask := c.aes(keys.hp, buf[pnOffset + SAMPLE_OFFSET..pnOffset + SAMPLE_OFFSET + SAMPLE_LENGTH]);
    var header: Octets := buf[..pnOffset];
    header := header[0 := XorByte(h.first, mask[0] % 16)];
    var pnLength := header[0] % 4 + 1;
    var number := UnmaskNumberBytes(buf, pnOffset, pnLength, mask);
    var packetNumber := FromBigEndian(number);
    header := header + number;
    assert header == [header[0]] + buf[1..pnOffset] + number;
    var plain := Open(c, keys, header, buf[pnOffset + pnLength..packetEnd], packetNumber);
    if plain.None? {
      return Pass(packetEnd); // undecipherable, but of known length
    }
    var parsed := ParseFrames(plain.value);
    if parsed.error.Some? {
      return Pass(packetEnd);
    }
    return Got(InitialPacket(h.version, h.dcid, h.scid, parsed.frames), packetEnd);
  }

  method Parse(c: Primitives, datagram: Octets) returns (r: Result<InitialPacket, QuicError>)
    requires c.Sound()
    ensures r == ParseInitial(c, datagram)
  {
    hide ParseOnePacket;
    if |datagram| < MIN_DATAGRAM {
      return Failure(NotInitial);
    }
    var out: Option<InitialPacket> := None;
    var offset := 0;
    while offset < |datagram|
      invariant Walk(c, datagram, offset, out) == Walk(c, datagram, 0, None)
      decreases |datagram| - offset
    {
      var o := ParsePacketAt(c, datagram, offset);
      if o.Stop? || o.consumed == 0 {
        break;
      }
      offset := offset + o.consumed;
      if o.Got? {
        out := Some(Joined(out, o.packet));
      }
    }
    return if out.None? then Failure(NotInitial) else Success(out.value);
  }

  method Build(c: Primitives, s: Spec) returns (r: Result<Octets, BuildError>)
    requires c.Sound() && InMemory(s)
    ensures r == BuildClientInitial(c, s)
  {
    hide Varint, DeriveClientInitialKeys, IdBytes, Nonce, UnmaskFirst, UnmaskNumber, CryptoFrameBytes;
    if |s.dcid| == 0 || |s.dcid| > 20 || |s.scid| > 20 {
      return Failure(BadConnectionId);
    }
    var keys := DeriveClientInitialKeys(c, ParamsFor(VERSION1).value, s.dcid);
    var payload := CryptoFrameBytes(s);
    var pad := Max(s.size, MIN_DATAGRAM) - HeaderLength(s) - OVERHEAD - |payload|;
    if pad > 0 {
      payload := payload + Zeros(pad);
    }
    assert payload == Payload(s);
    assert PacketLength(s) == BUILT_PN_LENGTH + |payload| + OVERHEAD;
    var lengthField := Varint(BUILT_PN_LENGTH + |payload| + OVERHEAD);
    if |lengthField| != 2 {
      return Failure(BadSize);
    }
    var header := [0xc3] + IdBytes(s) + (Varint(0) + lengthField);
    var ciphertext := c.seal(keys.key, Nonce(keys.iv, 0), payload, header + Zeros(BUILT_PN_LENGTH));
    var mask := c.aes(keys.hp, ciphertext[..SAMPLE_LENGTH]);
    var out := Protect(header, mask);
    return Success(out + ciphertext);
  }

  /** Header protection applied in place to the first byte and the zero packet number. */
  method Protect(header: Octets, mask: Octets) returns (out: Octets)
    requires |header| > 0 && |mask| == BLOCK
    ensures out == [UnmaskFirst(header[0], mask)] + header[1..] + UnmaskNumber(Zeros(BUILT_PN_LENGTH), mask)
  {
    hide Xor;
    var pnOffset := |header|;
    out := header + Zeros(BUILT_PN_LENGTH);
    out := out[0 := XorByte(out[0], mask[0] % 16)];
    ghost var front := [UnmaskFirst(header[0], mask)] + header[1..];
    ghost var number := UnmaskNumber(Zeros(BUILT_PN_LENGTH), mask);
    var i := 0;
    while i < BUILT_PN_LENGTH
      invariant 0 <= i <= BUILT_PN_LENGTH
      invariant out == front + number[..i] + Zeros(BUILT_PN_LENGTH - i)
    {
      assert number[..i + 1] == number[..i] + [XorByte(0, mask[1 + i])];
      out := out[pnOffset + i := XorByte(out[pnOffset + i], mask[1 + i])];
      i := i + 1;
    }
  }
}
