/** The JA4 and JA3 fingerprints of a ClientHello, over an uninterpreted digest. */
module Fingerprints {
  import opened Bytes
  import opened Collections
  import opened Sorting
  import opened Joins
  import opened ClientHellos

  const COMMA: Byte := 44
  const DASH: Byte := 45
  const UNDERSCORE: Byte := 95
  const TRANSPORT_TCP: Byte := 116 // 't'
  const TRANSPORT_QUIC: Byte := 113 // 'q'

  /** A digest function with 32-byte output. */
  type Digest = f: Octets -> Octets | (forall x :: |f(x)| == 32) witness (x: Octets) => Zeros(32)

  // --- JA4 ---

  function NegotiatedVersion(ch: ClientHello): Uint16 {
    var best := Largest(ch.supportedVersions);
    if best != 0 then best else ch.legacyVersion
  }

  function Largest(vs: seq<Uint16>): Uint16 {
    if vs == [] then 0
    else
      var rest := Largest(vs[1..]);
      if vs[0] > rest then vs[0] else rest
  }

  function VersionCode(v: Uint16): (r: Octets)
    ensures |r| == 2
  {
    if v == 0x0304 then [49, 51] // 13
    else if v == 0x0303 then [49, 50] // 12
    else if v == 0x0302 then [49, 49] // 11
    else if v == 0x0301 then [49, 48] // 10
    else if v == 0x0300 then [115, 51] // s3
    else if v == 0x0002 then [115, 50] // s2
    else [48, 48]
  }

  /** A count as two decimal digits; anything past 99 reads 99. */
  function TwoDigit(n: nat): (s: Octets)
    ensures |s| == 2
  {
    var m := if n > 99 then 99 else n;
    [48 + m / 10, 48 + m % 10]
  }

  /** The first protocol: as it is up to two bytes, else its first and last; "00" for none, "99" for non-ASCII. */
  function AlpnCode(alpn: seq<Octets>): Octets {
    if alpn == [] || alpn[0] == [] then [48, 48]
    else
      var v := alpn[0];
      if v[0] > 0x7f then [57, 57] else if |v| > 2 then [v[0], v[|v| - 1]] else v
  }

  function Ja4A(ch: ClientHello, transport: Byte): Octets {
    [transport] + VersionCode(NegotiatedVersion(ch)) + [if ch.hasSni then 100 else 105]
    + TwoDigit(|ch.cipherSuites|) + TwoDigit(|ch.extensions|) + AlpnCode(ch.alpn)
  }

  function Hexes(vs: seq<Uint16>): (r: seq<Octets>)
    ensures |r| == |vs|
  {
    if vs == [] then [] else [Hex4(vs[0])] + Hexes(vs[1..])
  }

  /** A list in comma-separated four-digit hex. */
  function HexList(vs: seq<Uint16>): Octets { Join(Hexes(vs), COMMA) }

  function CodeKey(v: Uint16): real { v as real }

  function Sorted(vs: seq<Uint16>): seq<Uint16> { Sort(vs, CodeKey) }

  /** The input of the second part's hash: the sorted cipher suites. */
  function CipherInput(ch: ClientHello): Octets { HexList(Sorted(ch.cipherSuites)) }

  function HashedExtensions(vs: seq<Uint16>): seq<Uint16> {
    if vs == [] then []
    else (if vs[0] == EXT_SERVER_NAME || vs[0] == EXT_ALPN then [] else [vs[0]]) + HashedExtensions(vs[1..])
  }

  /** The input of the third part's hash: the sorted extensions but SNI and ALPN, then the signature algorithms as offered. */
  function ExtensionInput(ch: ClientHello): Octets {
    var exts := Sorted(HashedExtensions(ch.extensions));
    if exts == [] then []
    else HexList(exts) + if ch.signatureAlgorithms == [] then [] else [UNDERSCORE] + HexList(ch.signatureAlgorithms)
  }

  function HexBytes(bs: Octets): (s: Octets)
    ensures |s| == 2 * |bs|
  {
    if bs == [] then [] else [HexDigit(bs[0] / 16), HexDigit(bs[0] % 16)] + HexBytes(bs[1..])
  }

  /** Twelve hex characters of the digest; zeros for an empty input. */
  function TruncHash(sha: Digest, input: Octets): (s: Octets)
    ensures |s| == 12
  {
    if input == [] then seq(12, _ => 48) else HexBytes(sha(input)[..6])
  }

  function Ja4(sha: Digest, ch: ClientHello, transport: Byte): (s: Octets)
    ensures s != []
  {
    Ja4A(ch, transport) + [UNDERSCORE] + TruncHash(sha, CipherInput(ch)) + [UNDERSCORE] + TruncHash(sha, ExtensionInput(ch))
  }

  /** The fingerprint is 36 characters wide, but 35 when the first protocol is a single ASCII byte. */
  lemma Ja4Width(sha: Digest, ch: ClientHello, transport: Byte)
    ensures |Ja4(sha, ch, transport)| == if ch.alpn != [] && |ch.alpn[0]| == 1 && ch.alpn[0][0] <= 0x7f then 35 else 36
  {
    hide TruncHash, NegotiatedVersion, VersionCode, TwoDigit, AlpnCode, CipherInput, ExtensionInput;
    AlpnWidth(ch.alpn);
  }

  lemma AlpnWidth(alpn: seq<Octets>)
    ensures |AlpnCode(alpn)| == if alpn != [] && |alpn[0]| == 1 && alpn[0][0] <= 0x7f then 1 else 2
  {
  }

  // --- JA3 ---

  function Decimals(vs: seq<nat>): (r: seq<Octets>)
    ensures |r| == |vs|
  {
    if vs == [] then [] else [Decimal(vs[0])] + Decimals(vs[1..])
  }

  /** A list in dash-separated decimal. */
  function DecimalList(vs: seq<nat>): Octets { Join(Decimals(vs), DASH) }

  /** Version, ciphers, extensions, groups and point formats. */
  function Ja3Raw(ch: ClientHello): Octets {
    Join([Decimal(ch.legacyVersion), DecimalList(ch.cipherSuites), DecimalList(ch.extensions),
          DecimalList(ch.supportedGroups), DecimalList(ch.pointFormats)], COMMA)
  }

  function Ja3(md5: Octets -> Octets, ch: ClientHello): Octets { HexBytes(md5(Ja3Raw(ch))) }

  // --- the strings that are hashed lose nothing ---

  /** Hex digits are neither separator. */
  lemma {:induction false} HexesPlain(vs: seq<Uint16>)
    ensures forall p | p in Hexes(vs) :: p != [] && COMMA !in p && UNDERSCORE !in p
  {
    if vs != [] {
      HexesPlain(vs[1..]);
    }
  }

  lemma {:induction false} HexesInjective(vs: seq<Uint16>, ws: seq<Uint16>)
    requires Hexes(vs) == Hexes(ws)
    ensures vs == ws
  {
    if vs != [] && ws != [] {
      var h, k := Hexes(vs), Hexes(ws);
      assert h[0] == Hex4(vs[0]) && k[0] == Hex4(ws[0]);
      assert h[1..] == Hexes(vs[1..]) && k[1..] == Hexes(ws[1..]);
      Hex4Injective(vs[0], ws[0]);
      HexesInjective(vs[1..], ws[1..]);
      assert vs == [vs[0]] + vs[1..] && ws == [ws[0]] + ws[1..];
    }
  }

  lemma HexListInjective(vs: seq<Uint16>, ws: seq<Uint16>)
    requires HexList(vs) == HexList(ws)
    ensures vs == ws
  {
    HexesPlain(vs);
    HexesPlain(ws);
    JoinInjective(Hexes(vs), Hexes(ws), COMMA);
    HexesInjective(vs, ws);
  }

  lemma HexListPlain(vs: seq<Uint16>)
    ensures UNDERSCORE !in HexList(vs)
  {
    HexesPlain(vs);
    JoinHolds(Hexes(vs), COMMA, UNDERSCORE);
  }

  /** The two parts of the third hash input, split at the separator. */
  lemma ExtensionInputSplits(ch: ClientHello)
    requires ExtensionInput(ch) != []
    ensures var exts := HexList(Sorted(HashedExtensions(ch.extensions)));
            Split(ExtensionInput(ch), UNDERSCORE)
            == if ch.signatureAlgorithms == [] then [exts] else [exts, HexList(ch.signatureAlgorithms)]
  {
    var exts := HexList(Sorted(HashedExtensions(ch.extensions)));
    HexListPlain(Sorted(HashedExtensions(ch.extensions)));
    HexListPlain(ch.signatureAlgorithms);
    hide HexList, Split;
    if ch.signatureAlgorithms == [] {
      assert ExtensionInput(ch) == exts;
      SplitOne(exts, UNDERSCORE);
    } else {
      var algs := HexList(ch.signatureAlgorithms);
      SplitFront(exts, algs, UNDERSCORE);
      SplitOne(algs, UNDERSCORE);
    }
  }

  /**
   Two non-empty inputs of the third hash are equal exactly when the sorted extensions without SNI
   and ALPN, and the signature algorithms in order, are equal.
   */
  lemma ExtensionInputExact(a: ClientHello, b: ClientHello)
    requires ExtensionInput(a) != [] && ExtensionInput(b) != []
    ensures ExtensionInput(a) == ExtensionInput(b) <==>
              Sorted(HashedExtensions(a.extensions)) == Sorted(HashedExtensions(b.extensions))
              && a.signatureAlgorithms == b.signatureAlgorithms
  {
    if ExtensionInput(a) == ExtensionInput(b) {
      ExtensionInputSplits(a);
      ExtensionInputSplits(b);
      hide ExtensionInput, HashedExtensions, Sorted, HexList, Split;
      HexListInjective(Sorted(HashedExtensions(a.extensions)), Sorted(HashedExtensions(b.extensions)));
      if a.signatureAlgorithms != [] && b.signatureAlgorithms != [] {
        HexListInjective(a.signatureAlgorithms, b.signatureAlgorithms);
      }
    }
  }

  lemma CodesDecide(vs: seq<Uint16>)
    ensures KeyDecides(vs, CodeKey)
  {
  }

  lemma SortedSame(a: seq<Uint16>, b: seq<Uint16>)
    ensures Sorted(a) == Sorted(b) <==> multiset(a) == multiset(b)
  {
    CodesDecide(a);
    hide Sort, SortedBy, KeyDecides, CodeKey;
    SortSorts(a, CodeKey);
    SortSorts(b, CodeKey);
    if multiset(a) == multiset(b) {
      SortForgetsOrder(a, b, CodeKey);
    }
  }

  /** The inputs of the second hash are equal exactly when the same cipher suites are offered, in any order. */
  lemma CipherInputExact(a: ClientHello, b: ClientHello)
    ensures CipherInput(a) == CipherInput(b) <==> multiset(a.cipherSuites) == multiset(b.cipherSuites)
  {
    SortedSame(a.cipherSuites, b.cipherSuites);
    if CipherInput(a) == CipherInput(b) {
      HexListInjective(Sorted(a.cipherSuites), Sorted(b.cipherSuites));
    }
  }

  lemma {:induction false} DecimalsPlain(vs: seq<nat>)
    ensures forall p | p in Decimals(vs) :: p != [] && DASH !in p && COMMA !in p
  {
    if vs != [] {
      DecimalsPlain(vs[1..]);
    }
  }

  lemma {:induction false} DecimalsInjective(vs: seq<nat>, ws: seq<nat>)
    requires Decimals(vs) == Decimals(ws)
    ensures vs == ws
  {
    if vs != [] && ws != [] {
      var h, k := Decimals(vs), Decimals(ws);
      assert h[0] == Decimal(vs[0]) && k[0] == Decimal(ws[0]);
      assert h[1..] == Decimals(vs[1..]) && k[1..] == Decimals(ws[1..]);
      DecimalInverse(vs[0]);
      DecimalInverse(ws[0]);
      DecimalsInjective(vs[1..], ws[1..]);
      assert vs == [vs[0]] + vs[1..] && ws == [ws[0]] + ws[1..];
    }
  }

  lemma DecimalListInjective(vs: seq<nat>, ws: seq<nat>)
    requires DecimalList(vs) == DecimalList(ws)
    ensures vs == ws
  {
    DecimalsPlain(vs);
    DecimalsPlain(ws);
    JoinInjective(Decimals(vs), Decimals(ws), DASH);
    DecimalsInjective(vs, ws);
  }

  lemma DecimalListPlain(vs: seq<nat>)
    ensures COMMA !in DecimalList(vs)
  {
    DecimalsPlain(vs);
    JoinHolds(Decimals(vs), DASH, COMMA);
  }

  function Ja3Parts(ch: ClientHello): (parts: seq<Octets>)
    ensures |parts| == 5
  {
    [Decimal(ch.legacyVersion), DecimalList(ch.cipherSuites), DecimalList(ch.extensions),
     DecimalList(ch.supportedGroups), DecimalList(ch.pointFormats)]
  }

  lemma Ja3RawSplits(ch: ClientHello)
    ensures Split(Ja3Raw(ch), COMMA) == Ja3Parts(ch)
  {
    hide DecimalList, Join, Split;
    DecimalListPlain(ch.cipherSuites);
    DecimalListPlain(ch.extensions);
    DecimalListPlain(ch.supportedGroups);
    DecimalListPlain(ch.pointFormats);
    SplitJoin(Ja3Parts(ch), COMMA);
  }

  /** The string JA3 hashes determines every field it was built from, in order. */
  lemma Ja3RawInjective(a: ClientHello, b: ClientHello)
    ensures Ja3Raw(a) == Ja3Raw(b) <==>
              a.legacyVersion == b.legacyVersion && a.cipherSuites == b.cipherSuites && a.extensions == b.extensions
              && a.supportedGroups == b.supportedGroups && a.pointFormats == b.pointFormats
  {
    if Ja3Raw(a) == Ja3Raw(b) {
      Ja3RawSplits(a);
      Ja3RawSplits(b);
      hide Ja3Raw, Decimal, DecimalList, Split;
      var p, q := Ja3Parts(a), Ja3Parts(b);
      assert p[0] == q[0] && p[1] == q[1] && p[2] == q[2] && p[3] == q[3] && p[4] == q[4];
      DecimalInverse(a.legacyVersion);
      DecimalInverse(b.legacyVersion);
      DecimalListInjective(a.cipherSuites, b.cipherSuites);
      DecimalListInjective(a.extensions, b.extensions);
      DecimalListInjective(a.supportedGroups, b.supportedGroups);
      DecimalListInjective(a.pointFormats, b.pointFormats);
    }
  }

  // --- the fingerprint depends on what is offered, not on its order ---

  /** Everything JA4 reads of two hellos agrees, up to the order of ciphers and extensions. */
  ghost predicate SameOffer(a: ClientHello, b: ClientHello) {
    && a.legacyVersion == b.legacyVersion && a.supportedVersions == b.supportedVersions
    && a.hasSni == b.hasSni && a.alpn == b.alpn && a.signatureAlgorithms == b.signatureAlgorithms
    && multiset(a.cipherSuites) == multiset(b.cipherSuites)
    && multiset(a.extensions) == multiset(b.extensions)
  }

  lemma HashedStep(vs: seq<Uint16>)
    requires vs != []
    ensures var rest := HashedExtensions(vs[1..]);
            if vs[0] == EXT_SERVER_NAME || vs[0] == EXT_ALPN then HashedExtensions(vs) == rest
            else HashedExtensions(vs) != [] && HashedExtensions(vs)[0] == vs[0] && HashedExtensions(vs)[1..] == rest
  {
    var rest := HashedExtensions(vs[1..]);
    assert [] + rest == rest && ([vs[0]] + rest)[1..] == rest;
  }

  lemma {:induction false} HashedCounts(vs: seq<Uint16>, v: Uint16)
    ensures multiset(HashedExtensions(vs))[v] == if v == EXT_SERVER_NAME || v == EXT_ALPN then 0 else multiset(vs)[v]
  {
    if vs != [] {
      HashedCounts(vs[1..], v);
      HashedStep(vs);
      CountFirst(vs, v);
      hide HashedExtensions;
      var kept := HashedExtensions(vs);
      if kept != HashedExtensions(vs[1..]) {
        CountFirst(kept, v);
      }
    }
  }

  lemma HashedSame(a: seq<Uint16>, b: seq<Uint16>)
    requires multiset(a) == multiset(b)
    ensures multiset(HashedExtensions(a)) == multiset(HashedExtensions(b))
  {
    forall v: Uint16 ensures multiset(HashedExtensions(a))[v] == multiset(HashedExtensions(b))[v] {
      HashedCounts(a, v);
      HashedCounts(b, v);
    }
  }

  lemma Ja4ASame(a: ClientHello, b: ClientHello, transport: Byte)
    requires SameOffer(a, b)
    ensures Ja4A(a, transport) == Ja4A(b, transport)
  {
    SameLength(a.cipherSuites, b.cipherSuites);
    SameLength(a.extensions, b.extensions);
    hide AlpnCode, VersionCode, TwoDigit;
  }

  lemma InputsSame(a: ClientHello, b: ClientHello)
    requires SameOffer(a, b)
    ensures CipherInput(a) == CipherInput(b) && ExtensionInput(a) == ExtensionInput(b)
  {
    hide Sorted, HexList, HashedExtensions;
    SortedSame(a.cipherSuites, b.cipherSuites);
    HashedSame(a.extensions, b.extensions);
    SortedSame(HashedExtensions(a.extensions), HashedExtensions(b.extensions));
  }

  lemma Ja4ForgetsOrder(sha: Digest, a: ClientHello, b: ClientHello, transport: Byte)
    requires SameOffer(a, b)
    ensures Ja4(sha, a, transport) == Ja4(sha, b, transport)
  {
    hide SameOffer, Ja4A, CipherInput, ExtensionInput, TruncHash;
    Ja4ASame(a, b, transport);
    InputsSame(a, b);
  }

  // --- the fingerprints as they are computed ---

  method AppendHexList(dst: Octets, vs: seq<Uint16>) returns (out: Octets)
    ensures out == dst + HexList(vs)
  {
    hide Hex4, Join;
    out := dst;
    var i := 0;
    JoinNone(COMMA);
    assert dst + [] == dst;
    while i < |vs|
      invariant 0 <= i <= |vs| && out == dst + Join(Hexes(vs[..i]), COMMA)
    {
      HexesAppend(vs[..i], vs[i]);
      assert vs[..i + 1] == vs[..i] + [vs[i]];
      JoinAppend(Hexes(vs[..i]), Hex4(vs[i]), COMMA);
      if i > 0 {
        out := out + [COMMA];
        assert dst + Join(Hexes(vs[..i]), COMMA) + [COMMA] + Hex4(vs[i]) == dst + (Join(Hexes(vs[..i]), COMMA) + ([COMMA] + Hex4(vs[i])));
      }
      out := out + Hex4(vs[i]);
      i := i + 1;
    }
    assert vs[..i] == vs;
  }

  lemma JoinNone(sep: Byte)
    ensures Join([], sep) == []
  {
  }

  lemma {:induction false} HexesAppend(vs: seq<Uint16>, v: Uint16)
    ensures Hexes(vs + [v]) == Hexes(vs) + [Hex4(v)]
  {
    hide Hex4;
    if vs == [] {
    } else {
      assert (vs + [v])[1..] == vs[1..] + [v];
      HexesAppend(vs[1..], v);
    }
  }

  method WriteDecimalList(b: Octets, vs: seq<nat>) returns (out: Octets)
    ensures out == b + DecimalList(vs)
  {
    hide Decimal, Join;
    out := b;
    var i := 0;
    JoinNone(DASH);
    assert b + [] == b;
    while i < |vs|
      invariant 0 <= i <= |vs| && out == b + Join(Decimals(vs[..i]), DASH)
    {
      DecimalsAppend(vs[..i], vs[i]);
      assert vs[..i + 1] == vs[..i] + [vs[i]];
      JoinAppend(Decimals(vs[..i]), Decimal(vs[i]), DASH);
      if i > 0 {
        out := out + [DASH];
        assert b + Join(Decimals(vs[..i]), DASH) + [DASH] + Decimal(vs[i]) == b + (Join(Decimals(vs[..i]), DASH) + ([DASH] + Decimal(vs[i])));
      }
      out := out + Decimal(vs[i]);
      i := i + 1;
    }
    assert vs[..i] == vs;
  }

  lemma {:induction false} DecimalsAppend(vs: seq<nat>, v: nat)
    ensures Decimals(vs + [v]) == Decimals(vs) + [Decimal(v)]
  {
    hide Decimal;
    if vs == [] {
    } else {
      assert (vs + [v])[1..] == vs[1..] + [v];
      DecimalsAppend(vs[1..], v);
    }
  }

  method RawJa3(ch: ClientHello) returns (raw: Octets)
    ensures raw == Ja3Raw(ch)
  {
    hide Decimal, DecimalList;
    raw := Decimal(ch.legacyVersion) + [COMMA];
    raw := WriteDecimalList(raw, ch.cipherSuites);
    raw := raw + [COMMA];
    raw := WriteDecimalList(raw, ch.extensions);
    raw := raw + [COMMA];
    raw := WriteDecimalList(raw, ch.supportedGroups);
    raw := raw + [COMMA];
    raw := WriteDecimalList(raw, ch.pointFormats);
    FiveFields(Decimal(ch.legacyVersion), DecimalList(ch.cipherSuites), DecimalList(ch.extensions),
               DecimalList(ch.supportedGroups), DecimalList(ch.pointFormats));
  }

  lemma FiveFields(v: Octets, c: Octets, e: Octets, g: Octets, p: Octets)
    ensures Join([v, c, e, g, p], COMMA) == v + [COMMA] + c + [COMMA] + e + [COMMA] + g + [COMMA] + p
  {
    JoinAppend([v], c, COMMA);
    JoinAppend([v, c], e, COMMA);
    JoinAppend([v, c, e], g, COMMA);
    JoinAppend([v, c, e, g], p, COMMA);
    assert Join([v], COMMA) == v;
    hide Join;
    assert [v] + [c] == [v, c] && [v, c] + [e] == [v, c, e] && [v, c, e] + [g] == [v, c, e, g] && [v, c, e, g] + [p] == [v, c, e, g, p];
    CommaAssoc(v, c);
    CommaAssoc(v + [COMMA] + c, e);
    CommaAssoc(v + [COMMA] + c + [COMMA] + e, g);
    CommaAssoc(v + [COMMA] + c + [COMMA] + e + [COMMA] + g, p);
  }

  lemma CommaAssoc(a: Octets, b: Octets)
    ensures a + ([COMMA] + b) == a + [COMMA] + b
  {
  }

  method HashedExtensionList(ch: ClientHello) returns (out: Octets)
    ensures out == ExtensionInput(ch)
  {
    hide HexList, Sorted, HashedExtensions;
    var exts := PickExtensions(ch.extensions);
    SortedLength(exts);
    if |exts| == 0 {
      return [];
    }
    out := AppendHexList([], Sorted(exts));
    if |ch.signatureAlgorithms| > 0 {
      out := AppendHexList(out + [UNDERSCORE], ch.signatureAlgorithms);
    }
  }

  /** The extensions that take part in the third hash, in wire order. */
  method PickExtensions(extensions: seq<Uint16>) returns (exts: seq<Uint16>)
    ensures exts == HashedExtensions(extensions)
  {
    hide HashedExtensions;
    exts := [];
    var i := 0;
    PickEnds(extensions);
    while i < |extensions|
      invariant 0 <= i <= |extensions|
      invariant exts + HashedExtensions(extensions[i..]) == HashedExtensions(extensions)
    {
      var e := extensions[i];
      PickStep(exts, extensions, i);
      if e != EXT_SERVER_NAME && e != EXT_ALPN {
        exts := exts + [e];
      }
      i := i + 1;
    }
  }

  lemma PickEnds(vs: seq<Uint16>)
    ensures vs[0..] == vs && HashedExtensions(vs[|vs|..]) == []
    ensures [] + HashedExtensions(vs) == HashedExtensions(vs)
    ensures forall done: seq<Uint16> :: done + [] == done
  {
  }

  lemma PickStep(done: seq<Uint16>, vs: seq<Uint16>, i: nat)
    requires i < |vs|
    ensures done + HashedExtensions(vs[i..])
            == (if vs[i] == EXT_SERVER_NAME || vs[i] == EXT_ALPN then done else done + [vs[i]]) + HashedExtensions(vs[i + 1..])
  {
    assert vs[i..][1..] == vs[i + 1..];
    var more := HashedExtensions(vs[i + 1..]);
    assert HashedExtensions(vs[i..]) == (if vs[i] == EXT_SERVER_NAME || vs[i] == EXT_ALPN then [] else [vs[i]]) + more;
    hide HashedExtensions;
    Assoc(done, [vs[i]], more);
    assert [] + more == more;
  }

  lemma SortedLength(vs: seq<Uint16>)
    ensures |Sorted(vs)| == |vs|
  {
  }

  method ComputeJa4(sha: Digest, ch: ClientHello, transport: Byte) returns (out: Octets)
    ensures out == Ja4(sha, ch, transport)
  {
    hide HexList, Sorted, ExtensionInput, TruncHash, Ja4A;
    var ciphers := [];
    SortedLength(ch.cipherSuites);
    if |ch.cipherSuites| > 0 {
      ciphers := AppendHexList([], Sorted(ch.cipherSuites));
    } else {
      assert HexList([]) == [] by { HexListNone(); }
      assert Sorted(ch.cipherSuites) == [];
    }
    assert [] + HexList(Sorted(ch.cipherSuites)) == HexList(Sorted(ch.cipherSuites));
    var exts := HashedExtensionList(ch);
    out := Ja4A(ch, transport) + [UNDERSCORE] + TruncHash(sha, ciphers) + [UNDERSCORE] + TruncHash(sha, exts);
  }

  lemma HexListNone()
    ensures HexList([]) == []
  {
  }
}
