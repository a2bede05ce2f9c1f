/**
 Printing a ClientHello, and the proof that the parser undoes it: for any hello on the wire,
 and for the hellos the synthetic capture builds from a profile.
 */
module HelloBuild {
  import opened Bytes
  import opened Cursors
  import opened ClientHellos

  /** A length in `n` bytes, its higher bits lost. */
  function Prefix(n: nat, length: nat): (s: Octets)
    requires 1 <= n <= 3
    ensures |s| == n
  {
    if n == 1 then [length % 0x100]
    else if n == 2 then U16Bytes(length % 0x1_0000)
    else U24Bytes(length % 0x100_0000)
  }

  function Vector(n: nat, inner: Octets): Octets
    requires 1 <= n <= 3
  {
    Prefix(n, |inner|) + inner
  }

  function ListBytes(vs: seq<Uint16>): (s: Octets)
    ensures |s| == 2 * |vs|
  {
    if vs == [] then [] else U16Bytes(vs[0]) + ListBytes(vs[1..])
  }

  // --- a hello on the wire ---

  datatype Block = Block(etype: Uint16, data: Octets)

  /** A ClientHello field by field, extension blocks in wire order. */
  datatype WireHello = WireHello(
    version: Uint16,
    random: Octets,
    session: Octets,
    ciphers: seq<Uint16>,
    compression: Octets,
    blocks: seq<Block>)

  function BlockBytes(b: Block): Octets { U16Bytes(b.etype) + Vector(2, b.data) }

  function BlocksBytes(bs: seq<Block>): Octets {
    if bs == [] then [] else BlockBytes(bs[0]) + BlocksBytes(bs[1..])
  }

  function PrefixBytes(w: WireHello): Octets {
    U16Bytes(w.version) + (w.random + (Vector(1, w.session) + (Vector(2, ListBytes(w.ciphers)) + Vector(1, w.compression))))
  }

  function BodyBytes(w: WireHello): Octets { PrefixBytes(w) + Vector(2, BlocksBytes(w.blocks)) }

  function HelloBytes(w: WireHello): Octets { [HANDSHAKE_CLIENT_HELLO] + Vector(3, BodyBytes(w)) }

  /** Every length fits its prefix and the random is 32 bytes. */
  predicate Fits(w: WireHello) {
    && |w.random| == 32 && |w.session| < 0x100 && |w.compression| < 0x100
    && 2 * |w.ciphers| < 0x1_0000 && |BlocksBytes(w.blocks)| < 0x1_0000
  }

  /** What the extension blocks contribute, in order. */
  function AddBlocks(ch: ClientHello, bs: seq<Block>): ClientHello
    decreases |bs|
  {
    if bs == [] then ch else AddBlocks(AddExtension(ch, bs[0].etype, Src(bs[0].data, false)), bs[1..])
  }

  function Decoded(w: WireHello): ClientHello {
    AddBlocks(EMPTY_HELLO.(legacyVersion := w.version, cipherSuites := StripGrease(w.ciphers)), w.blocks)
  }

  lemma Vector1Reads(inner: Octets, back: Octets)
    requires |inner| < 0x100
    ensures ReadString8(Src(Vector(1, inner) + back, false)) == (inner, Src(back, false))
    ensures Vector8(Src(Vector(1, inner) + back, false)) == Src(inner, false)
  {
    assert Vector(1, inner) + back == [|inner| as Byte] + (inner + back);
    ReadU8Front(|inner|, inner + back);
    ReadBytesFront(inner, back);
  }

  lemma Vector2Reads(inner: Octets, back: Octets)
    requires |inner| < 0x1_0000
    ensures var (length, s1) := Src(Vector(2, inner) + back, false).ReadU16();
            && s1.ReadSub(length) == (Src(inner, false), Src(back, false))
            && s1.ReadBytes(length) == (inner, Src(back, false))
    ensures Vector16(Src(Vector(2, inner) + back, false)) == Src(inner, false)
  {
    hide U16Bytes;
    assert Vector(2, inner) + back == U16Bytes(|inner|) + (inner + back);
    ReadU16Front(|inner|, inner + back);
    ReadBytesFront(inner, back);
  }

  lemma Vector3Reads(inner: Octets, back: Octets)
    requires |inner| < 0x100_0000
    ensures Src(Vector(3, inner) + back, false).ReadU24() == (|inner|, Src(inner + back, false))
  {
    hide U24Bytes;
    assert Vector(3, inner) + back == U24Bytes(|inner|) + (inner + back);
    ReadU24Front(|inner|, inner + back);
  }

  lemma {:induction false} ListReads(vs: seq<Uint16>)
    ensures ReadList(Src(ListBytes(vs), false)) == vs
  {
    if vs == [] {
    } else {
      ReadU16Front(vs[0], ListBytes(vs[1..]));
      ListReads(vs[1..]);
    }
  }

  lemma BlockReads(b: Block, back: Octets)
    requires |b.data| < 0x1_0000
    ensures ReadBlock(Src(BlockBytes(b) + back, false)) == (b.etype, Src(b.data, false), Src(back, false))
  {
    hide Vector;
    var tail := Vector(2, b.data) + back;
    assert BlockBytes(b) + back == U16Bytes(b.etype) + tail;
    ReadU16Front(b.etype, tail);
    Vector2Reads(b.data, back);
  }

  lemma {:induction false} BlocksRead(ch: ClientHello, bs: seq<Block>)
    requires |BlocksBytes(bs)| < 0x1_0000
    ensures ParseExtensions(ch, Src(BlocksBytes(bs), false)) == AddBlocks(ch, bs)
    decreases |bs|
  {
    hide ReadBlock, AddExtension;
    if bs == [] {
    } else {
      var b := bs[0];
      var ch' := AddExtension(ch, b.etype, Src(b.data, false));
      BlockReads(b, BlocksBytes(bs[1..]));
      BlocksRead(ch', bs[1..]);
    }
  }

  lemma PrefixReads(w: WireHello, back: Octets)
    requires Fits(w)
    ensures ReadPrefix(Src(PrefixBytes(w) + back, false))
            == (EMPTY_HELLO.(legacyVersion := w.version, cipherSuites := StripGrease(w.ciphers)), Src(back, false))
  {
    hide Vector, ReadString8, ReadList, ListBytes, StripGrease;
    var t4 := Vector(1, w.compression) + back;
    var t3 := Vector(2, ListBytes(w.ciphers)) + t4;
    var t2 := Vector(1, w.session) + t3;
    var t1 := w.random + t2;
    assert PrefixBytes(w) + back == U16Bytes(w.version) + t1;
    ReadU16Front(w.version, t1);
    ReadBytesFront(w.random, t2);
    Vector1Reads(w.session, t3);
    Vector2Reads(ListBytes(w.ciphers), t4);
    Vector1Reads(w.compression, back);
    ListReads(w.ciphers);
  }

  lemma BodyReads(w: WireHello)
    requires Fits(w)
    ensures ParseBody(Src(BodyBytes(w), false)) == Success(Decoded(w))
  {
    hide Vector, ReadPrefix, PrefixBytes, BlocksBytes, ParseExtensions, AddBlocks;
    var blocks := BlocksBytes(w.blocks);
    PrefixReads(w, Vector(2, blocks));
    Vector2Reads(blocks, []);
    assert Vector(2, blocks) + [] == Vector(2, blocks);
    VectorNonEmpty(blocks);
    BlocksRead(EMPTY_HELLO.(legacyVersion := w.version, cipherSuites := StripGrease(w.ciphers)), w.blocks);
  }

  lemma VectorNonEmpty(inner: Octets)
    ensures |Vector(2, inner)| == 2 + |inner|
  {
  }

  lemma BodySize(w: WireHello)
    requires Fits(w)
    ensures |BodyBytes(w)| < 0x100_0000
  {
    hide BlocksBytes;
  }

  /** Any hello that fits its length fields parses back to its own fields, whatever follows it. */
  lemma HelloRoundTrip(w: WireHello, back: Octets)
    requires Fits(w)
    ensures ParseHandshake(HelloBytes(w) + back) == Success(Decoded(w))
  {
    hide Vector, BodyBytes, ParseBody, Decoded;
    var body := BodyBytes(w);
    BodySize(w);
    assert HelloBytes(w) + back == [HANDSHAKE_CLIENT_HELLO] + (Vector(3, body) + back);
    ReadU8Front(HANDSHAKE_CLIENT_HELLO, Vector(3, body) + back);
    Vector3Reads(body, back);
    ReadBytesFront(body, back);
    BodyReads(w);
  }

  // --- hellos built from a profile ---

  /** The profile of a synthetic client. */
  datatype HelloSpec = HelloSpec(
    legacyVersion: Uint16,
    ciphers: seq<Uint16>,
    sni: Octets,
    alpn: seq<Octets>,
    sigAlgs: seq<Uint16>,
    groups: seq<Uint16>,
    pointFormats: Octets,
    supportedVersions: seq<Uint16>,
    padTo: int,
    grease: bool,
    ech: bool)

  const GREASE_CIPHER: Uint16 := 0x0a0a
  const GREASE_EXTENSION: Uint16 := 0x1a1a
  const EXT_PADDING: Uint16 := 0x0015
  const ECH_CONFIG_ID: Byte := 11

  function StringsBytes(ps: seq<Octets>): Octets {
    if ps == [] then [] else Vector(1, ps[0]) + StringsBytes(ps[1..])
  }

  function EchBytes(): Octets {
    [0] + U16Bytes(1) + U16Bytes(1) + [ECH_CONFIG_ID] + Vector(2, Zeros(32)) + Vector(2, Zeros(160))
  }

  function When(present: bool, b: Block): seq<Block> { if present then [b] else [] }

  function SniBlock(s: HelloSpec): Block { Block(EXT_SERVER_NAME, Vector(2, [0] + Vector(2, s.sni))) }

  function GroupsBlock(s: HelloSpec): Block { Block(EXT_SUPPORTED_GROUPS, Vector(2, ListBytes(s.groups))) }

  function FormatsBlock(s: HelloSpec): Block { Block(EXT_EC_POINT_FORMATS, Vector(1, s.pointFormats)) }

  function SigAlgsBlock(s: HelloSpec): Block { Block(EXT_SIGNATURE_ALGORITHMS, Vector(2, ListBytes(s.sigAlgs))) }

  function AlpnBlock(s: HelloSpec): Block { Block(EXT_ALPN, Vector(2, StringsBytes(s.alpn))) }

  function VersionsBlock(s: HelloSpec): Block { Block(EXT_SUPPORTED_VERSIONS, Vector(1, ListBytes(s.supportedVersions))) }

  /** The extension blocks of a profile, in the order they are written, before those of `tail`. */
  function ProfileBlocks(s: HelloSpec, tail: seq<Block>): seq<Block> {
    When(s.grease, Block(GREASE_EXTENSION, []))
    + (When(s.sni != [], SniBlock(s))
    + (When(s.groups != [], GroupsBlock(s))
    + (When(s.pointFormats != [], FormatsBlock(s))
    + (When(s.sigAlgs != [], SigAlgsBlock(s))
    + (When(s.alpn != [], AlpnBlock(s))
    + (When(s.supportedVersions != [], VersionsBlock(s))
    + (When(s.ech, Block(EXT_ECH, EchBytes()))
    + tail)))))))
  }

  /** A padding block brings the extensions up to the target size when it can. */
  function PadBlocks(s: HelloSpec): seq<Block> {
    var pad := s.padTo - |BlocksBytes(ProfileBlocks(s, []))| - 4;
    if s.padTo > 0 && pad > 0 then [Block(EXT_PADDING, Zeros(pad))] else []
  }

  /** The extensions take exactly the size asked for when padding fits, and what they need otherwise. */
  lemma PaddedSize(s: HelloSpec)
    ensures
      var plain := |BlocksBytes(ProfileBlocks(s, []))|;
      |BlocksBytes(PadBlocks(s))| == if s.padTo > plain + 4 then s.padTo - plain else 0
    ensures PadBlocks(s) == [] || (|PadBlocks(s)| == 1 && PadBlocks(s)[0].etype == 21)
  {
    hide ProfileBlocks;
    var pad := s.padTo - |BlocksBytes(ProfileBlocks(s, []))| - 4;
    if s.padTo > 0 && pad > 0 {
      OneBlockBytes(Block(EXT_PADDING, Zeros(pad)));
    }
  }

  lemma OneBlockBytes(b: Block)
    ensures |BlocksBytes([b])| == 4 + |b.data|
  {
    assert [b][1..] == [];
    assert BlocksBytes([b]) == BlockBytes(b) + [];
  }

  function ToWire(s: HelloSpec): WireHello {
    WireHello(s.legacyVersion, Zeros(32), [], (if s.grease then [GREASE_CIPHER] else []) + s.ciphers, [0],
              ProfileBlocks(s, PadBlocks(s)))
  }

  /** Every list fits the length field in front of it. */
  predicate SpecFits(s: HelloSpec) {
    && Fits(ToWire(s))
    && |s.pointFormats| < 0x100 && 2 * |s.supportedVersions| < 0x100
    && (forall p | p in s.alpn :: |p| < 0x100)
  }

  function NonEmpty(ps: seq<Octets>): seq<Octets> {
    if ps == [] then [] else (if ps[0] != [] then [ps[0]] else []) + NonEmpty(ps[1..])
  }

  function If(present: bool, t: Uint16): seq<Uint16> { if present then [t] else [] }

  /** The extension numbers of a profile, in the order they are written. */
  function ExtensionOrder(s: HelloSpec): seq<Uint16> {
    [] + If(s.sni != [], EXT_SERVER_NAME)
    + If(s.groups != [], EXT_SUPPORTED_GROUPS)
    + If(s.pointFormats != [], EXT_EC_POINT_FORMATS)
    + If(s.sigAlgs != [], EXT_SIGNATURE_ALGORITHMS)
    + If(s.alpn != [], EXT_ALPN)
    + If(s.supportedVersions != [], EXT_SUPPORTED_VERSIONS)
    + If(s.ech, EXT_ECH)
    + If(PadBlocks(s) != [], EXT_PADDING)
  }

  /** What a fingerprint should see of a profile: its own lists, without GREASE. */
  function Profile(s: HelloSpec): ClientHello {
    ClientHello(s.legacyVersion, StripGrease(s.ciphers), ExtensionOrder(s), StripGrease(s.groups), s.pointFormats,
                StripGrease(s.sigAlgs), StripGrease(s.supportedVersions), NonEmpty(s.alpn),
                s.sni[..Min(|s.sni|, MAX_SERVER_NAME)], s.sni != [], s.ech,
                if s.ech then ECH_CONFIG_ID else 0, s.ech)
  }

  // --- one lemma an extension ---

  lemma AddWhen(ch: ClientHello, present: bool, b: Block, rest: seq<Block>)
    ensures AddBlocks(ch, When(present, b) + rest)
            == AddBlocks(if present then AddExtension(ch, b.etype, Src(b.data, false)) else ch, rest)
  {
    hide AddExtension;
    if present {
      assert ([b] + rest)[1..] == rest;
    } else {
      assert [] + rest == rest;
    }
  }

  function Listed(ch: ClientHello, etype: Uint16): ClientHello { ch.(extensions := ch.extensions + [etype]) }

  lemma AddSni(ch: ClientHello, s: HelloSpec)
    requires s.sni != [] && ch.serverName == [] && |SniBlock(s).data| < 0x1_0000
    ensures AddExtension(ch, EXT_SERVER_NAME, Src(SniBlock(s).data, false))
            == Listed(ch, EXT_SERVER_NAME).(hasSni := true, serverName := s.sni[..Min(|s.sni|, MAX_SERVER_NAME)])
  {
    hide Vector, ReadNames, Vector16;
    var list := [0] + Vector(2, s.sni);
    VectorSize(2, list);
    VectorSize(2, s.sni);
    Vector2Reads(list, []);
    assert Vector(2, list) + [] == Vector(2, list);
    OneName(s.sni);
  }

  lemma VectorSize(n: nat, inner: Octets)
    requires 1 <= n <= 3
    ensures |Vector(n, inner)| == n + |inner|
  {
  }

  lemma OneName(name: Octets)
    requires 0 < |name| < 0x1_0000
    ensures ReadNames(Src([0] + Vector(2, name), false), []) == name[..Min(|name|, MAX_SERVER_NAME)]
  {
    hide Vector;
    VectorSize(2, name);
    ReadU8Front(0, Vector(2, name));
    Vector2Reads(name, []);
    assert Vector(2, name) + [] == Vector(2, name);
    assert ReadName(Src([0] + Vector(2, name), false)) == (0, name, Src([], false));
  }

  /** A vector alone in its extension. */
  lemma Vector2Alone(inner: Octets)
    requires |Vector(2, inner)| < 0x1_0000
    ensures Vector16(Src(Vector(2, inner), false)) == Src(inner, false)
  {
    assert Vector(2, inner) + [] == Vector(2, inner);
    Vector2Reads(inner, []);
  }

  lemma Vector1Alone(inner: Octets)
    requires |inner| < 0x100
    ensures Vector8(Src(Vector(1, inner), false)) == Src(inner, false)
  {
    assert Vector(1, inner) + [] == Vector(1, inner);
    Vector1Reads(inner, []);
  }

  lemma AddGroups(ch: ClientHello, s: HelloSpec)
    requires |GroupsBlock(s).data| < 0x1_0000
    ensures AddExtension(ch, EXT_SUPPORTED_GROUPS, Src(GroupsBlock(s).data, false))
            == Listed(ch, EXT_SUPPORTED_GROUPS).(supportedGroups := StripGrease(s.groups))
  {
    hide Vector, ReadList, Vector16, StripGrease, ListBytes;
    Vector2Alone(ListBytes(s.groups));
    ListReads(s.groups);
  }

  lemma AddFormats(ch: ClientHello, s: HelloSpec)
    requires ch.pointFormats == [] && |s.pointFormats| < 0x100
    ensures AddExtension(ch, EXT_EC_POINT_FORMATS, Src(FormatsBlock(s).data, false))
            == Listed(ch, EXT_EC_POINT_FORMATS).(pointFormats := s.pointFormats)
  {
    hide Vector, Vector8;
    Vector1Alone(s.pointFormats);
  }

  lemma AddSigAlgs(ch: ClientHello, s: HelloSpec)
    requires |SigAlgsBlock(s).data| < 0x1_0000
    ensures AddExtension(ch, EXT_SIGNATURE_ALGORITHMS, Src(SigAlgsBlock(s).data, false))
            == Listed(ch, EXT_SIGNATURE_ALGORITHMS).(signatureAlgorithms := StripGrease(s.sigAlgs))
  {
    hide Vector, ReadList, Vector16, StripGrease, ListBytes;
    Vector2Alone(ListBytes(s.sigAlgs));
    ListReads(s.sigAlgs);
  }

  lemma {:induction false} StringsRead(ps: seq<Octets>)
    requires forall p | p in ps :: |p| < 0x100
    ensures ReadProtocols(Src(StringsBytes(ps), false)) == NonEmpty(ps)
  {
    hide ReadString8, Vector;
    if ps == [] {
    } else {
      VectorSize(1, ps[0]);
      Vector1Reads(ps[0], StringsBytes(ps[1..]));
      StringsRead(ps[1..]);
    }
  }

  lemma AddAlpn(ch: ClientHello, s: HelloSpec)
    requires ch.alpn == [] && |AlpnBlock(s).data| < 0x1_0000 && forall p | p in s.alpn :: |p| < 0x100
    ensures AddExtension(ch, EXT_ALPN, Src(AlpnBlock(s).data, false))
            == Listed(ch, EXT_ALPN).(alpn := NonEmpty(s.alpn))
  {
    hide Vector, Vector16, ReadProtocols, StringsBytes;
    Vector2Alone(StringsBytes(s.alpn));
    StringsRead(s.alpn);
  }

  lemma AddVersions(ch: ClientHello, s: HelloSpec)
    requires ch.supportedVersions == [] && 2 * |s.supportedVersions| < 0x100
    ensures AddExtension(ch, EXT_SUPPORTED_VERSIONS, Src(VersionsBlock(s).data, false))
            == Listed(ch, EXT_SUPPORTED_VERSIONS).(supportedVersions := StripGrease(s.supportedVersions))
  {
    hide Vector, Vector8, ReadList, StripGrease, ListBytes;
    Vector1Alone(ListBytes(s.supportedVersions));
    ListReads(s.supportedVersions);
  }

  lemma AddEch(ch: ClientHello)
    ensures AddExtension(ch, EXT_ECH, Src(EchBytes(), false))
            == Listed(ch, EXT_ECH).(hasEch := true, echIsOuter := true, echConfigId := ECH_CONFIG_ID)
  {
    hide Vector;
    var tail := Vector(2, Zeros(32)) + Vector(2, Zeros(160));
    var suite := U16Bytes(1) + U16Bytes(1);
    assert EchBytes() == [0] + (suite + ([ECH_CONFIG_ID] + tail));
    ReadU8Front(0, suite + ([ECH_CONFIG_ID] + tail));
    ReadBytesFront(suite, [ECH_CONFIG_ID] + tail);
    ReadU8Front(ECH_CONFIG_ID, tail);
  }

  lemma {:induction false} BlockSizes(bs: seq<Block>)
    ensures forall b | b in bs :: |b.data| + 4 <= |BlocksBytes(bs)|
  {
    hide Vector;
    if bs != [] {
      VectorSize(2, bs[0].data);
      BlockSizes(bs[1..]);
      assert bs == [bs[0]] + bs[1..];
    }
  }

  lemma {:induction false} GreaseAdded(vs: seq<Uint16>)
    ensures StripGrease([GREASE_CIPHER] + vs) == StripGrease(vs)
  {
    assert ([GREASE_CIPHER] + vs)[1..] == vs;
  }

  lemma AddGrease(ch: ClientHello)
    ensures AddExtension(ch, GREASE_EXTENSION, Src([], false)) == ch
  {
  }

  lemma AddPadding(ch: ClientHello, s: HelloSpec)
    ensures AddBlocks(ch, PadBlocks(s)) == WithPadding(ch, s)
  {
    hide BlocksBytes, ProfileBlocks;
    var bs := PadBlocks(s);
    if bs != [] {
      assert bs[1..] == [];
    } else {
      AbsentAddsNothing(ch.extensions, EXT_PADDING);
    }
  }

  lemma PresentBlocks(s: HelloSpec, tail: seq<Block>)
    ensures var bs := ProfileBlocks(s, tail);
            && (s.sni != [] ==> SniBlock(s) in bs)
            && (s.groups != [] ==> GroupsBlock(s) in bs)
            && (s.sigAlgs != [] ==> SigAlgsBlock(s) in bs)
            && (s.alpn != [] ==> AlpnBlock(s) in bs)
  {
    hide SniBlock, GroupsBlock, FormatsBlock, SigAlgsBlock, AlpnBlock, VersionsBlock, EchBytes;
  }

  // what each extension of a profile adds, when it is present

  function WithSni(ch: ClientHello, s: HelloSpec): ClientHello {
    ch.(extensions := ch.extensions + If(s.sni != [], EXT_SERVER_NAME), hasSni := s.sni != [],
        serverName := if s.sni == [] then ch.serverName else s.sni[..Min(|s.sni|, MAX_SERVER_NAME)])
  }

  function WithGroups(ch: ClientHello, s: HelloSpec): ClientHello {
    ch.(extensions := ch.extensions + If(s.groups != [], EXT_SUPPORTED_GROUPS),
        supportedGroups := if s.groups == [] then ch.supportedGroups else StripGrease(s.groups))
  }

  function WithFormats(ch: ClientHello, s: HelloSpec): ClientHello {
    ch.(extensions := ch.extensions + If(s.pointFormats != [], EXT_EC_POINT_FORMATS),
        pointFormats := if s.pointFormats == [] then ch.pointFormats else s.pointFormats)
  }

  function WithSigAlgs(ch: ClientHello, s: HelloSpec): ClientHello {
    ch.(extensions := ch.extensions + If(s.sigAlgs != [], EXT_SIGNATURE_ALGORITHMS),
        signatureAlgorithms := if s.sigAlgs == [] then ch.signatureAlgorithms else StripGrease(s.sigAlgs))
  }

  function WithAlpn(ch: ClientHello, s: HelloSpec): ClientHello {
    ch.(extensions := ch.extensions + If(s.alpn != [], EXT_ALPN),
        alpn := if s.alpn == [] then ch.alpn else NonEmpty(s.alpn))
  }

  function WithVersions(ch: ClientHello, s: HelloSpec): ClientHello {
    ch.(extensions := ch.extensions + If(s.supportedVersions != [], EXT_SUPPORTED_VERSIONS),
        supportedVersions := if s.supportedVersions == [] then ch.supportedVersions else StripGrease(s.supportedVersions))
  }

  function WithEch(ch: ClientHello, s: HelloSpec): ClientHello {
    ch.(extensions := ch.extensions + If(s.ech, EXT_ECH), hasEch := s.ech, echIsOuter := s.ech,
        echConfigId := if s.ech then ECH_CONFIG_ID else ch.echConfigId)
  }

  function WithPadding(ch: ClientHello, s: HelloSpec): ClientHello {
    ch.(extensions := ch.extensions + If(PadBlocks(s) != [], EXT_PADDING))
  }

  lemma AbsentAddsNothing(vs: seq<Uint16>, t: Uint16)
    ensures vs + If(false, t) == vs
  {
  }

  /** Every block of a profile is small enough for its length field. */
  ghost predicate BlocksFit(s: HelloSpec) {
    && (s.sni != [] ==> |SniBlock(s).data| < 0x1_0000)
    && (s.groups != [] ==> |GroupsBlock(s).data| < 0x1_0000)
    && (s.sigAlgs != [] ==> |SigAlgsBlock(s).data| < 0x1_0000)
    && (s.alpn != [] ==> |AlpnBlock(s).data| < 0x1_0000)
    && |s.pointFormats| < 0x100 && 2 * |s.supportedVersions| < 0x100 && (forall p | p in s.alpn :: |p| < 0x100)
  }

  lemma AddFirstHalf(ch: ClientHello, s: HelloSpec, rest: seq<Block>)
    requires BlocksFit(s) && ch.serverName == [] && ch.pointFormats == [] && !ch.hasSni
    ensures AddBlocks(ch, When(s.grease, Block(GREASE_EXTENSION, []))
                          + (When(s.sni != [], SniBlock(s))
                          + (When(s.groups != [], GroupsBlock(s))
                          + (When(s.pointFormats != [], FormatsBlock(s)) + rest))))
            == AddBlocks(WithFormats(WithGroups(WithSni(ch, s), s), s), rest)
  {
    hide AddExtension, AddBlocks, SniBlock, GroupsBlock, FormatsBlock, When, StripGrease;
    var r3 := When(s.pointFormats != [], FormatsBlock(s)) + rest;
    var r2 := When(s.groups != [], GroupsBlock(s)) + r3;
    var r1 := When(s.sni != [], SniBlock(s)) + r2;
    var ch1 := WithSni(ch, s);
    var ch2 := WithGroups(ch1, s);
    BlockTypes(s);
    AddGrease(ch);
    AddWhen(ch, s.grease, Block(GREASE_EXTENSION, []), r1);
    if s.sni != [] {
      AddSni(ch, s);
    } else {
      AbsentAddsNothing(ch.extensions, EXT_SERVER_NAME);
    }
    AddWhen(ch, s.sni != [], SniBlock(s), r2);
    if s.groups != [] {
      AddGroups(ch1, s);
    } else {
      AbsentAddsNothing(ch1.extensions, EXT_SUPPORTED_GROUPS);
    }
    AddWhen(ch1, s.groups != [], GroupsBlock(s), r3);
    if s.pointFormats != [] {
      AddFormats(ch2, s);
    } else {
      AbsentAddsNothing(ch2.extensions, EXT_EC_POINT_FORMATS);
    }
    AddWhen(ch2, s.pointFormats != [], FormatsBlock(s), rest);
  }

  lemma BlockTypes(s: HelloSpec)
    ensures SniBlock(s).etype == EXT_SERVER_NAME && GroupsBlock(s).etype == EXT_SUPPORTED_GROUPS
    ensures FormatsBlock(s).etype == EXT_EC_POINT_FORMATS && SigAlgsBlock(s).etype == EXT_SIGNATURE_ALGORITHMS
    ensures AlpnBlock(s).etype == EXT_ALPN && VersionsBlock(s).etype == EXT_SUPPORTED_VERSIONS
  {
  }

  lemma AddSecondHalf(ch: ClientHello, s: HelloSpec, rest: seq<Block>)
    requires BlocksFit(s) && ch.alpn == [] && ch.supportedVersions == [] && !ch.hasEch && !ch.echIsOuter
    ensures AddBlocks(ch, When(s.sigAlgs != [], SigAlgsBlock(s))
                          + (When(s.alpn != [], AlpnBlock(s))
                          + (When(s.supportedVersions != [], VersionsBlock(s))
                          + (When(s.ech, Block(EXT_ECH, EchBytes())) + rest))))
            == AddBlocks(WithEch(WithVersions(WithAlpn(WithSigAlgs(ch, s), s), s), s), rest)
  {
    hide AddExtension, AddBlocks, SigAlgsBlock, AlpnBlock, VersionsBlock, EchBytes, When, StripGrease, NonEmpty;
    var r3 := When(s.ech, Block(EXT_ECH, EchBytes())) + rest;
    var r2 := When(s.supportedVersions != [], VersionsBlock(s)) + r3;
    var r1 := When(s.alpn != [], AlpnBlock(s)) + r2;
    var ch1 := WithSigAlgs(ch, s);
    var ch2 := WithAlpn(ch1, s);
    var ch3 := WithVersions(ch2, s);
    BlockTypes(s);
    if s.sigAlgs != [] {
      AddSigAlgs(ch, s);
    } else {
      AbsentAddsNothing(ch.extensions, EXT_SIGNATURE_ALGORITHMS);
    }
    AddWhen(ch, s.sigAlgs != [], SigAlgsBlock(s), r1);
    if s.alpn != [] {
      AddAlpn(ch1, s);
    } else {
      AbsentAddsNothing(ch1.extensions, EXT_ALPN);
    }
    AddWhen(ch1, s.alpn != [], AlpnBlock(s), r2);
    if s.supportedVersions != [] {
      AddVersions(ch2, s);
    } else {
      AbsentAddsNothing(ch2.extensions, EXT_SUPPORTED_VERSIONS);
    }
    AddWhen(ch2, s.supportedVersions != [], VersionsBlock(s), r3);
    AddEch(ch3);
    AbsentAddsNothing(ch3.extensions, EXT_ECH);
    AddWhen(ch3, s.ech, Block(EXT_ECH, EchBytes()), rest);
  }

  function FirstHalf(ch: ClientHello, s: HelloSpec): ClientHello { WithFormats(WithGroups(WithSni(ch, s), s), s) }

  function SecondHalf(ch: ClientHello, s: HelloSpec): ClientHello {
    WithPadding(WithEch(WithVersions(WithAlpn(WithSigAlgs(ch, s), s), s), s), s)
  }

  function Base(s: HelloSpec): ClientHello {
    EMPTY_HELLO.(legacyVersion := s.legacyVersion, cipherSuites := StripGrease(s.ciphers))
  }

  lemma HalvesStart(s: HelloSpec)
    ensures Base(s).serverName == [] && Base(s).pointFormats == [] && !Base(s).hasSni
    ensures var ch := FirstHalf(Base(s), s); ch.alpn == [] && ch.supportedVersions == [] && !ch.hasEch && !ch.echIsOuter
  {
  }

  lemma ProfileAdds(s: HelloSpec)
    requires BlocksFit(s)
    ensures AddBlocks(Base(s), ProfileBlocks(s, PadBlocks(s))) == SecondHalf(FirstHalf(Base(s), s), s)
  {
    HalvesStart(s);
    hide AddExtension, AddBlocks, SniBlock, GroupsBlock, FormatsBlock, SigAlgsBlock, AlpnBlock, VersionsBlock,
      EchBytes, When, BlocksBytes, StripGrease, NonEmpty, PadBlocks, BlocksFit, Base,
      WithSni, WithGroups, WithFormats, WithSigAlgs, WithAlpn, WithVersions, WithEch, WithPadding;
    var second := When(s.sigAlgs != [], SigAlgsBlock(s))
                  + (When(s.alpn != [], AlpnBlock(s))
                  + (When(s.supportedVersions != [], VersionsBlock(s))
                  + (When(s.ech, Block(EXT_ECH, EchBytes())) + PadBlocks(s))));
    var ch := FirstHalf(Base(s), s);
    AddFirstHalf(Base(s), s, second);
    AddSecondHalf(ch, s, PadBlocks(s));
    AddPadding(WithEch(WithVersions(WithAlpn(WithSigAlgs(ch, s), s), s), s), s);
  }

  lemma BlocksFitOf(s: HelloSpec)
    requires SpecFits(s)
    ensures BlocksFit(s)
  {
    hide SniBlock, GroupsBlock, FormatsBlock, SigAlgsBlock, AlpnBlock, VersionsBlock, EchBytes, BlocksBytes, ProfileBlocks,
      PadBlocks;
    BlockSizes(ProfileBlocks(s, PadBlocks(s)));
    PresentBlocks(s, PadBlocks(s));
  }

  /** The extensions together rebuild the profile. */
  lemma ProfileAssembles(s: HelloSpec)
    ensures SecondHalf(FirstHalf(Base(s), s), s) == Profile(s)
  {
    assert StripGrease([]) == [] && NonEmpty([]) == [];
    hide PadBlocks, StripGrease, NonEmpty, If;
  }

  function BuildHandshake(s: HelloSpec): Octets { HelloBytes(ToWire(s)) }

  /**
   Parsing a built hello returns the profile: its ciphers, groups, point formats, signature
   algorithms, versions, ALPN list, server name, ECH fields and extension order, whether or not
   GREASE was added, and whatever follows it.
   */
  lemma ProfileRoundTrip(s: HelloSpec, back: Octets)
    requires SpecFits(s)
    ensures ParseHandshake(BuildHandshake(s) + back) == Success(Profile(s))
  {
    hide HelloBytes, AddBlocks, Profile, ProfileBlocks, PadBlocks, ParseHandshake;
    HelloRoundTrip(ToWire(s), back);
    BlocksFitOf(s);
    ProfileAdds(s);
    ProfileAssembles(s);
    assert StripGrease((if s.grease then [GREASE_CIPHER] else []) + s.ciphers) == StripGrease(s.ciphers) by {
      GreaseAdded(s.ciphers);
      assert [] + s.ciphers == s.ciphers;
    }
  }

  /** A list without GREASE comes back unchanged. */
  lemma {:induction false} NoGreaseUnchanged(vs: seq<Uint16>)
    ensures StripGrease(vs) == vs <==> forall v | v in vs :: !IsGrease(v)
  {
    if vs != [] {
      NoGreaseUnchanged(vs[1..]);
      assert vs == [vs[0]] + vs[1..];
      StripShrinks(vs[1..]);
    }
  }

  lemma StripShrinks(vs: seq<Uint16>)
    ensures |StripGrease(vs)| <= |vs|
  {
  }
}
