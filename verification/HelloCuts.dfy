/** Hellos that are cut short, corrupt, or lie about their lengths: what the parser makes of them. */
module HelloCuts {
  import opened Bytes
  import opened Collections
  import opened Cursors
  import opened ClientHellos
  import opened HelloBuild

  // --- more bytes do not change a read that did not fail ---

  function With(s: Src, back: Octets): Src { Src(s.rest + back, s.bad) }

  /** A reader that has failed offers nothing more. */
  ghost predicate Spent(s: Src) { s.bad ==> s.rest == [] }

  lemma U8More(s: Src, back: Octets)
    requires Spent(s)
    ensures Spent(s.ReadU8().1)
    ensures !s.ReadU8().1.bad ==> !s.bad && With(s, back).ReadU8() == (s.ReadU8().0, With(s.ReadU8().1, back))
  {
    if |s.rest| >= 1 {
      assert (s.rest + back)[1..] == s.rest[1..] + back;
    }
  }

  lemma U16More(s: Src, back: Octets)
    requires Spent(s)
    ensures Spent(s.ReadU16().1)
    ensures !s.ReadU16().1.bad ==> !s.bad && With(s, back).ReadU16() == (s.ReadU16().0, With(s.ReadU16().1, back))
  {
    if |s.rest| >= 2 {
      assert (s.rest + back)[2..] == s.rest[2..] + back;
    }
  }

  lemma BytesMore(s: Src, n: nat, back: Octets)
    requires Spent(s)
    ensures Spent(s.ReadBytes(n).1)
    ensures !s.ReadBytes(n).1.bad ==> !s.bad && With(s, back).ReadBytes(n) == (s.ReadBytes(n).0, With(s.ReadBytes(n).1, back))
  {
    if |s.rest| >= n {
      assert (s.rest + back)[n..] == s.rest[n..] + back && (s.rest + back)[..n] == s.rest[..n];
    }
  }

  lemma SubMore(s: Src, n: nat, back: Octets)
    requires Spent(s)
    ensures Spent(s.ReadSub(n).1)
    ensures !s.ReadSub(n).1.bad ==> !s.bad && With(s, back).ReadSub(n) == (s.ReadSub(n).0, With(s.ReadSub(n).1, back))
  {
    if |s.rest| >= n {
      assert (s.rest + back)[n..] == s.rest[n..] + back && (s.rest + back)[..n] == s.rest[..n];
    }
  }

  lemma SkipMore(s: Src, back: Octets)
    requires Spent(s)
    ensures Spent(Skip8(s))
    ensures !Skip8(s).bad ==> !s.bad && Skip8(With(s, back)) == With(Skip8(s), back)
  {
    hide Spent, With;
    U8More(s, back);
    BytesMore(s.ReadU8().1, s.ReadU8().0, back);
  }

  lemma PrefixMore(s: Src, back: Octets)
    requires Spent(s)
    ensures Spent(ReadPrefix(s).1)
    ensures !ReadPrefix(s).1.bad ==> ReadPrefix(With(s, back)) == (ReadPrefix(s).0, With(ReadPrefix(s).1, back))
  {
    hide Spent, With, Skip8, ReadU16List;
    U16More(s, back);
    var s1 := s.ReadU16().1;
    BytesMore(s1, 32, back);
    SkipMore(s1.ReadBytes(32).1, back);
    var s2 := Skip8(s1.ReadBytes(32).1);
    U16More(s2, back);
    var (n, s3) := s2.ReadU16();
    SubMore(s3, n, back);
    SkipMore(s3.ReadSub(n).1, back);
  }

  // --- a body that ends early ---

  function Bare(w: WireHello): ClientHello { EMPTY_HELLO.(legacyVersion := w.version, cipherSuites := StripGrease(w.ciphers)) }

  lemma CutPrefix(w: WireHello, k: nat)
    requires Fits(w) && k < |PrefixBytes(w)|
    ensures ReadPrefix(Src(PrefixBytes(w)[..k], false)).1 == Src([], true)
  {
    var p := PrefixBytes(w);
    hide PrefixBytes, ReadPrefix;
    PrefixMore(Src(p[..k], false), p[k..]);
    PrefixReads(w, []);
    assert p[..k] + p[k..] == p && p + [] == p;
  }

  /** The extensions' vector, cut anywhere but before it. */
  lemma CutVector(inner: Octets, k: nat)
    requires |inner| < 0x1_0000 && 0 < k < |Vector(2, inner)|
    ensures var (length, s) := Src(Vector(2, inner)[..k], false).ReadU16(); s.ReadSub(length).1.bad
  {
    var v := Vector(2, inner);
    Vector2Reads(inner, []);
    assert v + [] == v;
    var s := Src(v[..k], false);
    U16More(s, v[k..]);
    if k >= 2 {
      SubMore(s.ReadU16().1, s.ReadU16().0, v[k..]);
      hide Vector;
      assert v[..k] + v[k..] == v;
    }
  }

  lemma CutBody(w: WireHello, k: nat)
    requires Fits(w) && k <= |BodyBytes(w)|
    ensures ParseBody(Src(BodyBytes(w)[..k], false))
            == if k == |BodyBytes(w)| then Success(Decoded(w))
               else if k == |PrefixBytes(w)| then Success(Bare(w))
               else Failure(Malformed)
  {
    hide PrefixBytes, Vector, ReadPrefix, BlocksBytes, ParseBody, Decoded;
    var p, v := PrefixBytes(w), Vector(2, BlocksBytes(w.blocks));
    var b := p + v;
    VectorNonEmpty(BlocksBytes(w.blocks));
    if k < |p| {
      CutPrefix(w, k);
      assert b[..k] == p[..k];
      NothingLeft(Src(b[..k], false));
    } else if k < |b| {
      PrefixReads(w, v[..k - |p|]);
      assert b[..k] == p + v[..k - |p|];
      CutLater(w, Src(b[..k], false), k - |p|);
    } else {
      BodyReads(w);
      assert b[..k] == b;
    }
  }

  lemma NothingLeft(s: Src)
    requires ReadPrefix(s).1 == Src([], true)
    ensures ParseBody(s) == Failure(Malformed)
  {
    hide ReadPrefix;
  }

  lemma CutLater(w: WireHello, s: Src, k: nat)
    requires Fits(w) && k < |Vector(2, BlocksBytes(w.blocks))|
    requires ReadPrefix(s) == (Bare(w), Src(Vector(2, BlocksBytes(w.blocks))[..k], false))
    ensures ParseBody(s) == if k == 0 then Success(Bare(w)) else Failure(Malformed)
  {
    hide ReadPrefix, Vector, BlocksBytes, Bare, ParseExtensions;
    if k > 0 {
      CutVector(BlocksBytes(w.blocks), k);
    }
  }

  /**
   A hello whose length field owns up to only `k` bytes of its body: it parses when that is all of it, or when
   it ends where the extensions would start, and is malformed at every other cut.
   */
  lemma CutHello(w: WireHello, k: nat, back: Octets)
    requires Fits(w) && k <= |BodyBytes(w)|
    ensures ParseHandshake([1] + (Vector(3, BodyBytes(w)[..k]) + back))
            == if k == |BodyBytes(w)| then Success(Decoded(w))
               else if k == |PrefixBytes(w)| then Success(Bare(w))
               else Failure(Malformed)
  {
    CutBody(w, k);
    BodySize(w);
    var body := BodyBytes(w)[..k];
    hide BodyBytes, Vector, ParseBody, Decoded, Bare, PrefixBytes;
    ReadU8Front(1, Vector(3, body) + back);
    Vector3Reads(body, back);
    ReadBytesFront(body, back);
  }

  /** A message is no ClientHello by its first byte, incomplete by its length, and malformed only inside it. */
  lemma HandshakeErrors(body: Octets)
    ensures ParseHandshake(body) == Failure(NotClientHello) <==> body == [] || body[0] != 1
    ensures ParseHandshake(body) == Failure(Incomplete)
            <==> body != [] && body[0] == 1 && (|body| < 4 || |body| < 4 + Be24(body[1], body[2], body[3]))
  {
    hide ReadPrefix, ParseExtensions, Be24;
    if |body| >= 4 {
      assert body[1..][3..] == body[4..];
      assert body[1..][0] == body[1] && body[1..][1] == body[2] && body[1..][2] == body[3];
    }
  }

  // --- extension blocks ---

  /** What no whole extension block starts. */
  ghost predicate Broken(junk: Octets) { |junk| < 4 || 4 + Be16(junk[2], junk[3]) > |junk| }

  /** A corrupt block ends the walk, and the blocks before it count. */
  lemma {:induction false} CorruptBlockEnds(ch: ClientHello, bs: seq<Block>, junk: Octets)
    requires Broken(junk) && forall b | b in bs :: |b.data| < 0x1_0000
    ensures ParseExtensions(ch, Src(BlocksBytes(bs) + junk, false)) == AddBlocks(ch, bs)
    decreases |bs|
  {
    hide AddExtension, BlockBytes;
    if bs == [] {
      assert [] + junk == junk;
      JunkStops(ch, junk);
    } else {
      var b, rest := bs[0], BlocksBytes(bs[1..]) + junk;
      Assoc(BlockBytes(b), BlocksBytes(bs[1..]), junk);
      BlockReads(b, rest);
      BlockSize(b);
      CorruptBlockEnds(AddExtension(ch, b.etype, Src(b.data, false)), bs[1..], junk);
    }
  }

  lemma BlockSize(b: Block)
    ensures |BlockBytes(b)| >= 4
  {
  }

  lemma JunkStops(ch: ClientHello, junk: Octets)
    requires Broken(junk)
    ensures ParseExtensions(ch, Src(junk, false)) == ch
  {
    hide AddExtension;
    if |junk| >= 4 {
      assert junk[2..][2..] == junk[4..];
    }
  }

  /** The extensions that are read, by the numbers IANA gave them; any other leaves the hello as it was. */
  lemma ExtensionsByNumber(ch: ClientHello, etype: Uint16, data: Src)
    ensures var g := ParseExtension(ch, etype, data);
            && (etype == 0 ==> g == ch.(hasSni := true, serverName := ReadNames(Vector16(data), ch.serverName)))
            && (etype == 10 ==> g == ch.(supportedGroups := ReadU16List(Vector16(data))))
            && (etype == 11 ==> g == ch.(pointFormats := ch.pointFormats + Vector8(data).rest))
            && (etype == 13 ==> g == ch.(signatureAlgorithms := ReadU16List(Vector16(data))))
            && (etype == 16 ==> g == ch.(alpn := ch.alpn + ReadProtocols(Vector16(data))))
            && (etype == 43 ==> g == ch.(supportedVersions := ch.supportedVersions + ReadU16List(Vector8(data))))
            && (etype == 0xfe0d ==> g.hasEch && g == ch.(hasEch := true, echIsOuter := g.echIsOuter, echConfigId := g.echConfigId))
            && (etype !in {0, 10, 11, 13, 16, 43, 0xfe0d} ==> g == ch)
  {
  }

  /** An encrypted hello is outer exactly when its type says so, and then names its configuration behind the suite. */
  lemma EncryptedHello(ch: ClientHello, data: Octets)
    requires |data| >= 6 && !ch.echIsOuter
    ensures var g := ParseExtension(ch, 0xfe0d, Src(data, false));
            && (g.echIsOuter <==> data[0] == 0) && g.echConfigId == if data[0] == 0 then data[5] else ch.echConfigId
  {
    assert data[1..][4..] == data[5..];
  }

  // --- server names ---

  /** A name of the list, with its type. */
  datatype Name = Name(kind: Byte, bytes: Octets)

  function NamesBytes(ns: seq<Name>): Octets {
    if ns == [] then [] else [ns[0].kind] + Vector(2, ns[0].bytes) + NamesBytes(ns[1..])
  }

  /** The first host name that is not empty, no more than 253 bytes of it. */
  function HostName(ns: seq<Name>): Octets {
    if ns == [] then []
    else if ns[0].kind == 0 && ns[0].bytes != [] then ns[0].bytes[..Min(|ns[0].bytes|, 253)]
    else HostName(ns[1..])
  }

  lemma {:induction false} NamesRead(ns: seq<Name>, name: Octets)
    requires forall n | n in ns :: |n.bytes| < 0x1_0000
    ensures ReadNames(Src(NamesBytes(ns), false), name) == if name != [] then name else HostName(ns)
    decreases |ns|
  {
    hide ReadName;
    if ns != [] {
      var n, rest := ns[0], NamesBytes(ns[1..]);
      NameFront(n, rest);
      NamesRead(ns[1..], if n.kind == 0 && name == [] then n.bytes[..Min(|n.bytes|, 253)] else name);
    }
  }

  lemma NameFront(n: Name, rest: Octets)
    requires |n.bytes| < 0x1_0000
    ensures var s := [n.kind] + Vector(2, n.bytes) + rest;
            |s| >= 3 && ReadName(Src(s, false)) == (n.kind, n.bytes, Src(rest, false))
  {
    VectorNonEmpty(n.bytes);
    hide Vector;
    Assoc([n.kind], Vector(2, n.bytes), rest);
    ReadU8Front(n.kind, Vector(2, n.bytes) + rest);
    Vector2Reads(n.bytes, rest);
  }
}
