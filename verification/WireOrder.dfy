/**
 JA4 from end to end: the fingerprint of a hello on the wire does not change when its cipher
 suites are permuted, its extension blocks are permuted, or GREASE is inserted in either.
 */
module WireOrder {
  import opened Bytes
  import opened Collections
  import opened Cursors
  import opened ClientHellos
  import opened HelloBuild
  import opened Fingerprints

  /** What a list of blocks contributes apart from its numbers. */
  function AddContents(ch: ClientHello, bs: seq<Block>): ClientHello
    decreases |bs|
  {
    if bs == [] then ch else AddContents(ParseExtension(ch, bs[0].etype, Src(bs[0].data, false)), bs[1..])
  }

  function Types(bs: seq<Block>): seq<Uint16> {
    if bs == [] then [] else [bs[0].etype] + Types(bs[1..])
  }

  function WithExtensions(ch: ClientHello, exts: seq<Uint16>): ClientHello { ch.(extensions := exts) }

  /** The contents of an extension, field by field: each type has its own. */
  function Fieldwise(ch: ClientHello, t: Uint16, d: Src): ClientHello {
    ClientHello(
      ch.legacyVersion, ch.cipherSuites, ch.extensions,
      if t == EXT_SUPPORTED_GROUPS then ReadU16List(Vector16(d)) else ch.supportedGroups,
      if t == EXT_EC_POINT_FORMATS then ch.pointFormats + Vector8(d).rest else ch.pointFormats,
      if t == EXT_SIGNATURE_ALGORITHMS then ReadU16List(Vector16(d)) else ch.signatureAlgorithms,
      if t == EXT_SUPPORTED_VERSIONS then ch.supportedVersions + ReadU16List(Vector8(d)) else ch.supportedVersions,
      if t == EXT_ALPN then ch.alpn + ReadProtocols(Vector16(d)) else ch.alpn,
      if t == EXT_SERVER_NAME then ReadNames(Vector16(d), ch.serverName) else ch.serverName,
      ch.hasSni || t == EXT_SERVER_NAME,
      ch.hasEch || t == EXT_ECH,
      if t == EXT_ECH && IsOuter(d) then OuterConfig(d) else ch.echConfigId,
      ch.echIsOuter || (t == EXT_ECH && IsOuter(d)))
  }

  predicate IsOuter(d: Src) { d.ReadU8().0 == 0 }

  function OuterConfig(d: Src): Byte { d.ReadU8().1.ReadBytes(4).1.ReadU8().0 }

  lemma ParseFieldwise(ch: ClientHello, t: Uint16, d: Src)
    ensures ParseExtension(ch, t, d) == Fieldwise(ch, t, d)
  {
    hide ReadNames, ReadU16List, ReadProtocols, Vector16, Vector8;
  }

  /** No extension's contents touch the list of numbers, nor depend on it. */
  lemma ContentsIgnoreNumbers(ch: ClientHello, exts: seq<Uint16>, etype: Uint16, data: Src)
    ensures ParseExtension(WithExtensions(ch, exts), etype, data) == WithExtensions(ParseExtension(ch, etype, data), exts)
  {
    hide ParseExtension, ReadNames, ReadU16List, ReadProtocols, Vector16, Vector8, IsOuter, OuterConfig;
    ParseFieldwise(WithExtensions(ch, exts), etype, data);
    ParseFieldwise(ch, etype, data);
  }

  lemma {:induction false} AddContentsIgnoresNumbers(ch: ClientHello, exts: seq<Uint16>, bs: seq<Block>)
    ensures AddContents(WithExtensions(ch, exts), bs) == WithExtensions(AddContents(ch, bs), exts)
    decreases |bs|
  {
    hide ParseExtension, WithExtensions;
    if bs != [] {
      var data := Src(bs[0].data, false);
      ContentsIgnoreNumbers(ch, exts, bs[0].etype, data);
      AddContentsIgnoresNumbers(ParseExtension(ch, bs[0].etype, data), exts, bs[1..]);
    }
  }

  lemma AddOneSplits(ch: ClientHello, b: Block)
    ensures var next := ParseExtension(ch, b.etype, Src(b.data, false));
            AddExtension(ch, b.etype, Src(b.data, false)) == WithExtensions(next, ch.extensions + StripGrease([b.etype]))
  {
    hide ParseExtension, IsGrease;
    assert WithExtensions(ch, ch.extensions) == ch;
    assert ch.extensions + [] == ch.extensions;
    ContentsIgnoreNumbers(ch, ch.extensions, b.etype, Src(b.data, false));
    ContentsIgnoreNumbers(ch, ch.extensions + [b.etype], b.etype, Src(b.data, false));
  }

  lemma StripFirst(t: Uint16, ts: seq<Uint16>)
    ensures StripGrease([t] + ts) == StripGrease([t]) + StripGrease(ts)
  {
    hide IsGrease;
    assert ([t] + ts)[1..] == ts;
  }

  /** Adding blocks is adding their contents and listing their numbers. */
  lemma {:induction false} AddBlocksSplits(ch: ClientHello, bs: seq<Block>)
    ensures AddBlocks(ch, bs) == WithExtensions(AddContents(ch, bs), ch.extensions + StripGrease(Types(bs)))
    decreases |bs|
  {
    if bs == [] {
      assert ch.extensions + [] == ch.extensions;
    } else {
      var b := bs[0];
      var listed := ch.extensions + StripGrease([b.etype]);
      var next := ParseExtension(ch, b.etype, Src(b.data, false));
      AddOneSplits(ch, b);
      StripFirst(b.etype, Types(bs[1..]));
      hide ParseExtension, AddExtension, StripGrease;
      AddBlocksSplits(WithExtensions(next, listed), bs[1..]);
      AddContentsIgnoresNumbers(next, listed, bs[1..]);
      Assoc(ch.extensions, StripGrease([b.etype]), StripGrease(Types(bs[1..])));
    }
  }

  /** Blocks of different types contribute to different fields. */
  lemma ContentsCommute(ch: ClientHello, a: Block, b: Block)
    requires a.etype != b.etype
    ensures var da, db := Src(a.data, false), Src(b.data, false);
            ParseExtension(ParseExtension(ch, a.etype, da), b.etype, db)
            == ParseExtension(ParseExtension(ch, b.etype, db), a.etype, da)
  {
    hide ParseExtension, ReadNames, ReadU16List, ReadProtocols, Vector16, Vector8, IsOuter, OuterConfig;
    var da, db := Src(a.data, false), Src(b.data, false);
    ParseFieldwise(ch, a.etype, da);
    ParseFieldwise(ch, b.etype, db);
    ParseFieldwise(ParseExtension(ch, a.etype, da), b.etype, db);
    ParseFieldwise(ParseExtension(ch, b.etype, db), a.etype, da);
  }

  /** A block may be added first when no block before it has its type. */
  lemma {:induction false} MoveToFront(ch: ClientHello, bs: seq<Block>, i: nat)
    requires i < |bs| && forall j | 0 <= j < i :: bs[j].etype != bs[i].etype
    ensures AddContents(ch, bs) == AddContents(ch, [bs[i]] + Remove(bs, i))
    decreases i
  {
    hide ParseExtension;
    if i == 0 {
      assert [bs[0]] + Remove(bs, 0) == bs;
    } else {
      var a, b := bs[0], bs[i];
      var rest := Remove(bs[1..], i - 1);
      MoveToFront(ParseExtension(ch, a.etype, Src(a.data, false)), bs[1..], i - 1);
      assert Remove(bs, i) == [a] + rest;
      assert ([b] + ([a] + rest))[1..] == [a] + rest && ([a] + rest)[1..] == rest && ([b] + rest)[1..] == rest;
      ContentsCommute(ch, a, b);
    }
  }

  ghost predicate DistinctTypes(bs: seq<Block>) {
    forall i, j | 0 <= i < j < |bs| :: bs[i].etype != bs[j].etype
  }

  lemma RemoveDistinct(bs: seq<Block>, i: nat)
    requires i < |bs| && DistinctTypes(bs)
    ensures DistinctTypes(Remove(bs, i))
  {
  }

  /** Blocks of distinct types contribute the same in any order. */
  lemma {:induction false} ContentsForgetOrder(ch: ClientHello, a: seq<Block>, b: seq<Block>)
    requires multiset(a) == multiset(b) && DistinctTypes(a) && DistinctTypes(b)
    ensures AddContents(ch, a) == AddContents(ch, b)
    decreases |a|
  {
    assert |a| == |multiset(a)| == |multiset(b)| == |b|;
    if a != [] {
      assert a[0] in multiset(b);
      var i :| 0 <= i < |b| && b[i] == a[0];
      MoveToFront(ch, b, i);
      RemoveMultiset(a, 0);
      RemoveMultiset(b, i);
      RemoveDistinct(a, 0);
      RemoveDistinct(b, i);
      assert Remove(a, 0) == a[1..] && ([b[i]] + Remove(b, i))[1..] == Remove(b, i);
      hide ParseExtension;
      ContentsForgetOrder(ParseExtension(ch, a[0].etype, Src(a[0].data, false)), a[1..], Remove(b, i));
    }
  }

  // --- GREASE ---

  function PlainBlocks(bs: seq<Block>): seq<Block> {
    if bs == [] then [] else (if IsGrease(bs[0].etype) then [] else [bs[0]]) + PlainBlocks(bs[1..])
  }

  /** GREASE blocks contribute nothing. */
  lemma {:induction false} GreaseContributesNothing(ch: ClientHello, bs: seq<Block>)
    ensures AddContents(ch, bs) == AddContents(ch, PlainBlocks(bs))
    ensures Types(PlainBlocks(bs)) == StripGrease(Types(bs))
    decreases |bs|
  {
    if bs != [] {
      var next := ParseExtension(ch, bs[0].etype, Src(bs[0].data, false));
      GreaseContributesNothing(next, bs[1..]);
      assert Types(bs)[1..] == Types(bs[1..]);
      if IsGrease(bs[0].etype) {
        GreaseIgnored(ch, bs[0].etype, Src(bs[0].data, false));
        assert [] + PlainBlocks(bs[1..]) == PlainBlocks(bs[1..]);
      } else {
        assert ([bs[0]] + PlainBlocks(bs[1..]))[1..] == PlainBlocks(bs[1..]);
      }
    }
  }

  lemma GreaseUnknown(t: Uint16)
    requires IsGrease(t)
    ensures t != EXT_SERVER_NAME && t != EXT_SUPPORTED_GROUPS && t != EXT_EC_POINT_FORMATS
    ensures t != EXT_SIGNATURE_ALGORITHMS && t != EXT_ALPN && t != EXT_SUPPORTED_VERSIONS && t != EXT_ECH
  {
    assert !IsGrease(EXT_SERVER_NAME) && !IsGrease(EXT_SUPPORTED_GROUPS) && !IsGrease(EXT_EC_POINT_FORMATS);
    assert !IsGrease(EXT_SIGNATURE_ALGORITHMS) && !IsGrease(EXT_ALPN) && !IsGrease(EXT_SUPPORTED_VERSIONS) && !IsGrease(EXT_ECH);
    hide IsGrease;
  }

  lemma GreaseIgnored(ch: ClientHello, etype: Uint16, data: Src)
    requires IsGrease(etype)
    ensures ParseExtension(ch, etype, data) == ch
  {
    hide IsGrease;
    GreaseUnknown(etype);
  }

  lemma {:induction false} TypesMultiset(a: seq<Block>, b: seq<Block>)
    requires multiset(a) == multiset(b)
    ensures multiset(Types(a)) == multiset(Types(b))
    decreases |a|
  {
    assert |a| == |multiset(a)| == |multiset(b)| == |b|;
    if a != [] {
      assert a[0] in multiset(b);
      var i :| 0 <= i < |b| && b[i] == a[0];
      RemoveMultiset(a, 0);
      RemoveMultiset(b, i);
      assert Remove(a, 0) == a[1..];
      TypesMultiset(a[1..], Remove(b, i));
      TypesSplit(b, i);
    }
  }

  lemma {:induction false} TypesAppend(a: seq<Block>, b: seq<Block>)
    ensures Types(a + b) == Types(a) + Types(b)
  {
    if a == [] {
      assert a + b == b;
    } else {
      assert (a + b)[1..] == a[1..] + b;
      TypesAppend(a[1..], b);
    }
  }

  lemma SplitAt<T>(s: seq<T>, i: nat)
    requires i < |s|
    ensures s == s[..i] + ([s[i]] + s[i + 1..])
  {
    assert s[i..] == [s[i]] + s[i + 1..];
    assert s == s[..i] + s[i..];
  }

  lemma TypesSplit(b: seq<Block>, i: nat)
    requires i < |b|
    ensures multiset(Types(b)) == multiset{b[i].etype} + multiset(Types(Remove(b, i)))
  {
    hide Types;
    var x, y := b[..i], b[i + 1..];
    assert b == x + ([b[i]] + y) by { SplitAt(b, i); }
    TypesAppend(x, [b[i]] + y);
    TypesAppend([b[i]], y);
    TypesAppend(x, y);
    TypesOne(b[i]);
    MiddleOut(Types(x), b[i].etype, Types(y));
  }

  lemma TypesOne(b: Block)
    ensures Types([b]) == [b.etype]
  {
  }

  lemma MiddleOut(x: seq<Uint16>, t: Uint16, y: seq<Uint16>)
    ensures multiset(x + ([t] + y)) == multiset{t} + multiset(x + y)
  {
    assert multiset([t] + y) == multiset{t} + multiset(y);
  }

  /**
   Two hellos on the wire that differ only in the order of cipher suites, the order of extension
   blocks, the GREASE among either, and in what the fingerprint does not read at all.
   */
  ghost predicate SameWire(a: WireHello, b: WireHello) {
    && a.version == b.version
    && multiset(StripGrease(a.ciphers)) == multiset(StripGrease(b.ciphers))
    && multiset(PlainBlocks(a.blocks)) == multiset(PlainBlocks(b.blocks))
    && DistinctTypes(PlainBlocks(a.blocks)) && DistinctTypes(PlainBlocks(b.blocks))
  }

  function Start(w: WireHello): ClientHello {
    EMPTY_HELLO.(legacyVersion := w.version, cipherSuites := StripGrease(w.ciphers))
  }

  /** A decoded hello is its blocks' contents beside the plain numbers. */
  lemma DecodedSplits(w: WireHello)
    ensures Decoded(w) == WithExtensions(AddContents(Start(w), PlainBlocks(w.blocks)), Types(PlainBlocks(w.blocks)))
    ensures Decoded(w).cipherSuites == StripGrease(w.ciphers)
  {
    hide AddContents, AddBlocks, StripGrease, PlainBlocks, Types;
    AddBlocksSplits(Start(w), w.blocks);
    GreaseContributesNothing(Start(w), w.blocks);
    assert [] + StripGrease(Types(w.blocks)) == StripGrease(Types(w.blocks));
    ContentsKeepCiphers(Start(w), [], PlainBlocks(w.blocks));
  }

  lemma DecodedSame(a: WireHello, b: WireHello)
    requires SameWire(a, b)
    ensures SameOffer(Decoded(a), Decoded(b))
  {
    hide AddContents, AddBlocks, StripGrease, PlainBlocks, Types, Decoded, DistinctTypes;
    var pa, pb := PlainBlocks(a.blocks), PlainBlocks(b.blocks);
    DecodedSplits(a);
    DecodedSplits(b);
    ContentsForgetOrder(Start(b), pa, pb);
    TypesMultiset(pa, pb);
    assert Start(b) == Start(a).(cipherSuites := Start(b).cipherSuites);
    ContentsKeepCiphers(Start(a), Start(b).cipherSuites, pa);
  }

  lemma {:induction false} ContentsKeepCiphers(ch: ClientHello, ciphers: seq<Uint16>, bs: seq<Block>)
    ensures AddContents(ch.(cipherSuites := ciphers), bs) == AddContents(ch, bs).(cipherSuites := ciphers)
    ensures AddContents(ch, bs).cipherSuites == ch.cipherSuites
    decreases |bs|
  {
    if bs != [] {
      var data := Src(bs[0].data, false);
      ContentIgnoresCiphers(ch, ciphers, bs[0].etype, data);
      hide ParseExtension;
      ContentsKeepCiphers(ParseExtension(ch, bs[0].etype, data), ciphers, bs[1..]);
    }
  }

  lemma ContentIgnoresCiphers(ch: ClientHello, ciphers: seq<Uint16>, etype: Uint16, data: Src)
    ensures ParseExtension(ch.(cipherSuites := ciphers), etype, data) == ParseExtension(ch, etype, data).(cipherSuites := ciphers)
    ensures ParseExtension(ch, etype, data).cipherSuites == ch.cipherSuites
  {
    hide ParseExtension, ReadNames, ReadU16List, ReadProtocols, Vector16, Vector8, IsOuter, OuterConfig;
    ParseFieldwise(ch.(cipherSuites := ciphers), etype, data);
    ParseFieldwise(ch, etype, data);
  }

  /** JA4 of the bytes of two such hellos is the same. */
  lemma Ja4IgnoresWireOrder(sha: Digest, a: WireHello, b: WireHello, transport: Byte)
    requires Fits(a) && Fits(b) && SameWire(a, b)
    ensures
      var ra, rb := ParseHandshake(HelloBytes(a)), ParseHandshake(HelloBytes(b));
      ra.Success? && rb.Success? && Ja4(sha, ra.value, transport) == Ja4(sha, rb.value, transport)
  {
    hide SameOffer, SameWire, HelloBytes, Decoded, Ja4, Fits, ParseHandshake;
    HelloRoundTrip(a, []);
    HelloRoundTrip(b, []);
    assert HelloBytes(a) + [] == HelloBytes(a) && HelloBytes(b) + [] == HelloBytes(b);
    DecodedSame(a, b);
    Ja4ForgetsOrder(sha, Decoded(a), Decoded(b), transport);
  }

  /** The three changes a client makes between connections, each an instance of the above. */
  lemma {:induction false} StripCounts(vs: seq<Uint16>, v: Uint16)
    ensures multiset(StripGrease(vs))[v] == if IsGrease(v) then 0 else multiset(vs)[v]
  {
    hide IsGrease;
    if vs != [] {
      StripCounts(vs[1..], v);
      CountFirst(vs, v);
      if !IsGrease(vs[0]) {
        assert ([vs[0]] + StripGrease(vs[1..]))[1..] == StripGrease(vs[1..]);
        CountFirst([vs[0]] + StripGrease(vs[1..]), v);
      }
    }
  }

  lemma PermutedCiphers(a: seq<Uint16>, b: seq<Uint16>)
    requires forall v: Uint16 | !IsGrease(v) :: multiset(a)[v] == multiset(b)[v]
    ensures multiset(StripGrease(a)) == multiset(StripGrease(b))
  {
    forall v: Uint16 ensures multiset(StripGrease(a))[v] == multiset(StripGrease(b))[v] {
      StripCounts(a, v);
      StripCounts(b, v);
    }
  }

  lemma {:induction false} PlainCounts(bs: seq<Block>, b: Block)
    ensures multiset(PlainBlocks(bs))[b] == if IsGrease(b.etype) then 0 else multiset(bs)[b]
  {
    if bs != [] {
      PlainCounts(bs[1..], b);
      PlainStep(bs);
      CountFirst(bs, b);
      hide PlainBlocks;
      var kept := PlainBlocks(bs);
      if !IsGrease(bs[0].etype) {
        CountFirst(kept, b);
      }
    }
  }

  lemma PlainStep(bs: seq<Block>)
    requires bs != []
    ensures var rest := PlainBlocks(bs[1..]);
            if IsGrease(bs[0].etype) then PlainBlocks(bs) == rest
            else PlainBlocks(bs) != [] && PlainBlocks(bs)[0] == bs[0] && PlainBlocks(bs)[1..] == rest
  {
    var rest := PlainBlocks(bs[1..]);
    assert [] + rest == rest && ([bs[0]] + rest)[1..] == rest;
  }

  lemma PermutedBlocks(a: seq<Block>, b: seq<Block>)
    requires forall x: Block | !IsGrease(x.etype) :: multiset(a)[x] == multiset(b)[x]
    ensures multiset(PlainBlocks(a)) == multiset(PlainBlocks(b))
  {
    forall x: Block ensures multiset(PlainBlocks(a))[x] == multiset(PlainBlocks(b))[x] {
      PlainCounts(a, x);
      PlainCounts(b, x);
    }
  }

  // --- a fingerprint narrower than documented ---

  /** A profile that offers one protocol, the single letter x. */
  const ONE_LETTER := HelloSpec(0x0303, [0x1301], [], [[120]], [], [], [], [], 0, false, false)

  /** The hello built of it parses, and its fingerprint has 35 characters. */
  lemma NarrowFingerprint(sha: Digest, transport: Byte)
    ensures var r := ParseHandshake(BuildHandshake(ONE_LETTER));
            r.Success? && |Ja4(sha, r.value, transport)| == 35
  {
    OneLetterFits();
    hide BuildHandshake, ParseHandshake, Profile, Ja4, SpecFits;
    ProfileRoundTrip(ONE_LETTER, []);
    assert BuildHandshake(ONE_LETTER) + [] == BuildHandshake(ONE_LETTER);
    Ja4Width(sha, Profile(ONE_LETTER), transport);
  }

  lemma OneLetterFits()
    ensures SpecFits(ONE_LETTER) && Profile(ONE_LETTER).alpn == [[120]]
  {
    var s := ONE_LETTER;
    assert NonEmpty(s.alpn[1..]) == [];
    assert PadBlocks(s) == [];
    assert ProfileBlocks(s, []) == [AlpnBlock(s)];
    assert StringsBytes(s.alpn) == Vector(1, [120]) + StringsBytes([]);
    hide U16Bytes;
    assert BlocksBytes([AlpnBlock(s)]) == BlockBytes(AlpnBlock(s)) + BlocksBytes([]);
  }
}
