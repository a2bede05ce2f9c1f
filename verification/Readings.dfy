/** What the characters of a fingerprint say, and what two equal fingerprints have in common. */
module Readings {
  import opened Bytes
  import opened Collections
  import opened Sorting
  import opened Joins
  import opened ClientHellos
  import opened Fingerprints

  // --- digits ---

  ghost predicate IsHex(s: Octets) { forall b | b in s :: 48 <= b <= 57 || 97 <= b <= 102 }

  /** The number a run of hex digits spells. */
  function HexValue(s: Octets): int {
    if s == [] then 0 else 16 * HexValue(s[..|s| - 1]) + HexDigitValue(s[|s| - 1])
  }

  lemma HexValueLast(s: Octets, b: Byte)
    ensures HexValue(s + [b]) == 16 * HexValue(s) + HexDigitValue(b)
  {
    assert (s + [b])[..|s|] == s;
  }

  lemma DigitReads(d: nat)
    requires d < 16
    ensures HexDigitValue(HexDigit(d)) == d
  {
  }

  lemma TwoHexRead(v: nat)
    requires v < 256
    ensures HexValue([HexDigit(v / 16), HexDigit(v % 16)]) == v
  {
    hide HexDigit, HexDigitValue;
    var h, l := HexDigit(v / 16), HexDigit(v % 16);
    DigitReads(v / 16);
    DigitReads(v % 16);
    HexValueLast([], h);
    HexValueLast([h], l);
    assert [] + [h] == [h] && [h] + [l] == [h, l];
  }

  lemma Hex4Reads(v: Uint16)
    ensures IsHex(Hex4(v)) && HexValue(Hex4(v)) == v
  {
    hide HexDigit, HexDigitValue, HexValue;
    var h, l := [HexDigit(v / 0x1000), HexDigit(v / 0x100 % 16)], [HexDigit(v / 16 % 16), HexDigit(v % 16)];
    assert v / 0x1000 == v / 0x100 / 16;
    TwoHexRead(v / 0x100);
    DigitReads(v / 16 % 16);
    DigitReads(v % 16);
    HexValueLast(h, l[0]);
    HexValueLast(h + [l[0]], l[1]);
    assert h + [l[0]] + [l[1]] == Hex4(v);
    Nibbles(v);
    Nibble(v / 0x100, 16);
  }

  /** `s` spells `bs` in lowercase hex, two digits a byte. */
  ghost predicate Spells(s: Octets, bs: Octets) {
    && |s| == 2 * |bs| && IsHex(s)
    && forall i | 0 <= i < |bs| :: HexValue([s[2 * i], s[2 * i + 1]]) == bs[i]
  }

  lemma {:induction false} HexBytesRead(bs: Octets)
    ensures Spells(HexBytes(bs), bs)
  {
    if bs != [] {
      HexBytesRead(bs[1..]);
      TwoHexRead(bs[0]);
      SpellsMore(HexDigit(bs[0] / 16), HexDigit(bs[0] % 16), bs[0], HexBytes(bs[1..]), bs[1..]);
      HeadTail(bs);
    }
  }

  lemma SpellsMore(h: Byte, l: Byte, b: Byte, s: Octets, bs: Octets)
    requires Spells(s, bs) && IsHex([h, l]) && HexValue([h, l]) == b
    ensures Spells([h, l] + s, [b] + bs)
  {
    hide HexValue;
    var t, cs := [h, l] + s, [b] + bs;
    forall i | 0 <= i < |cs| ensures HexValue([t[2 * i], t[2 * i + 1]]) == cs[i] {
      if i == 0 {
        assert [t[0], t[1]] == [h, l];
      } else {
        assert t[2 * i] == s[2 * (i - 1)] && t[2 * i + 1] == s[2 * (i - 1) + 1] && cs[i] == bs[i - 1];
      }
    }
    forall x | x in t ensures 48 <= x <= 57 || 97 <= x <= 102 {
      assert x in [h, l] || x in s;
    }
  }

  lemma SpellsSame(s: Octets, a: Octets, b: Octets)
    requires Spells(s, a) && Spells(s, b)
    ensures a == b
  {
    hide HexValue, IsHex;
    forall i | 0 <= i < |a| ensures a[i] == b[i] {
      assert HexValue([s[2 * i], s[2 * i + 1]]) == a[i];
    }
  }

  // --- lists ---

  /** `s` lists the values of `vs` in order: each in four hex digits, commas between, nothing for none. */
  ghost predicate Lists(s: Octets, vs: seq<Uint16>) {
    if vs == [] then s == []
    else
      var parts := Split(s, 44);
      |parts| == |vs| && forall i | 0 <= i < |vs| :: |parts[i]| == 4 && IsHex(parts[i]) && HexValue(parts[i]) == vs[i]
  }

  lemma {:induction false} HexesAt(vs: seq<Uint16>, i: nat)
    requires i < |vs|
    ensures Hexes(vs)[i] == Hex4(vs[i])
  {
    hide Hex4;
    if i > 0 {
      HexesAt(vs[1..], i - 1);
    }
  }

  lemma HexListReads(vs: seq<Uint16>)
    ensures Lists(HexList(vs), vs)
  {
    if vs != [] {
      HexesPlain(vs);
      SplitJoin(Hexes(vs), COMMA);
      hide Hexes, Hex4, HexValue, IsHex, Join, Split;
      forall i | 0 <= i < |vs|
        ensures |Hexes(vs)[i]| == 4 && IsHex(Hexes(vs)[i]) && HexValue(Hexes(vs)[i]) == vs[i]
      {
        HexesAt(vs, i);
        Hex4Reads(vs[i]);
      }
    }
  }

  ghost predicate Ascending(vs: seq<Uint16>) { forall i, j | 0 <= i < j < |vs| :: vs[i] <= vs[j] }

  /** The values of `vs` in ascending order, each as often as it occurs there. */
  lemma SortedAscends(vs: seq<Uint16>)
    ensures Ascending(Sorted(vs)) && multiset(Sorted(vs)) == multiset(vs)
  {
    SortSorts(vs, CodeKey);
    hide Sort;
    var s := Sorted(vs);
    forall i, j | 0 <= i < j < |s| ensures s[i] <= s[j] {
      assert CodeKey(s[i]) <= CodeKey(s[j]);
    }
  }

  /** Server name (0) and ALPN (16) stay out of the third hash. */
  predicate TakesPart(e: Uint16) { e != 0 && e != 16 }

  ghost predicate SomeTakePart(es: seq<Uint16>) { exists e | e in es :: TakesPart(e) }

  /** `vs` holds the extensions that take part, as often as `es` does. */
  ghost predicate TakingPart(vs: seq<Uint16>, es: seq<Uint16>) {
    forall e: Uint16 :: multiset(vs)[e] == if TakesPart(e) then multiset(es)[e] else 0
  }

  lemma HashedTakePart(es: seq<Uint16>)
    ensures TakingPart(HashedExtensions(es), es)
    ensures HashedExtensions(es) == [] <==> !SomeTakePart(es)
  {
    forall e: Uint16 ensures multiset(HashedExtensions(es))[e] == if TakesPart(e) then multiset(es)[e] else 0 {
      HashedCounts(es, e);
    }
    hide HashedExtensions;
    var vs := HashedExtensions(es);
    if vs != [] {
      assert multiset(vs)[vs[0]] > 0;
      assert vs[0] in multiset(es);
    }
    if SomeTakePart(es) {
      var e :| e in es && TakesPart(e);
      assert multiset(es)[e] > 0;
      assert e in multiset(vs);
    }
  }

  /** The second hash covers the cipher suites in ascending order. */
  lemma CipherInputReads(ch: ClientHello)
    ensures exists vs: seq<Uint16> :: Ascending(vs) && multiset(vs) == multiset(ch.cipherSuites) && Lists(CipherInput(ch), vs)
  {
    hide Sorted, HexList, Lists;
    SortedAscends(ch.cipherSuites);
    HexListReads(Sorted(ch.cipherSuites));
  }

  /**
   The third hash covers the extensions that take part in ascending order and, after an underscore, the
   signature algorithms as they were offered; but nothing at all when no extension takes part.
   */
  lemma ExtensionInputReads(ch: ClientHello)
    ensures ExtensionInput(ch) == [] <==> !SomeTakePart(ch.extensions)
    ensures SomeTakePart(ch.extensions) ==>
              exists vs: seq<Uint16>, exts, algs ::
                && Ascending(vs) && TakingPart(vs, ch.extensions) && Lists(exts, vs) && Lists(algs, ch.signatureAlgorithms)
                && ExtensionInput(ch) == if ch.signatureAlgorithms == [] then exts else exts + [95] + algs
  {
    HashedTakePart(ch.extensions);
    var vs := Sorted(HashedExtensions(ch.extensions));
    SortedAscends(HashedExtensions(ch.extensions));
    SortedLength(HashedExtensions(ch.extensions));
    var exts, algs := HexList(vs), HexList(ch.signatureAlgorithms);
    HexListReads(vs);
    HexListReads(ch.signatureAlgorithms);
    if vs != [] {
      SomeListed(exts, vs);
    }
    hide HashedExtensions, Sorted, HexList, Lists, SomeTakePart, Ascending;
    if SomeTakePart(ch.extensions) {
      assert Ascending(vs) && TakingPart(vs, ch.extensions) && Lists(exts, vs) && Lists(algs, ch.signatureAlgorithms);
      assert exts + ([UNDERSCORE] + algs) == exts + [UNDERSCORE] + algs && exts + [] == exts;
    }
  }

  lemma SomeListed(s: Octets, vs: seq<Uint16>)
    requires Lists(s, vs) && vs != []
    ensures s != []
  {
    assert |Split(s, COMMA)[0]| == 4;
    assert Split([], COMMA) == [[]];
  }

  // --- the characters of JA4 ---

  /** Twelve characters: the first six bytes of the digest in hex, or zeros for an empty input. */
  ghost predicate DigestReads(s: Octets, sha: Digest, input: Octets) {
    if input == [] then s == [48, 48, 48, 48, 48, 48, 48, 48, 48, 48, 48, 48] else Spells(s, sha(input)[..6])
  }

  lemma TruncHashReads(sha: Digest, input: Octets)
    ensures DigestReads(TruncHash(sha, input), sha, input)
  {
    if input != [] {
      HexBytesRead(sha(input)[..6]);
    }
  }

  /** The highest version on offer among the supported ones, or the legacy version when none is listed. */
  ghost predicate Negotiates(v: Uint16, ch: ClientHello) {
    if exists w | w in ch.supportedVersions :: w != 0
    then v in ch.supportedVersions && forall w | w in ch.supportedVersions :: w <= v
    else v == ch.legacyVersion
  }

  lemma {:induction false} LargestReads(vs: seq<Uint16>)
    ensures forall w | w in vs :: w <= Largest(vs)
    ensures Largest(vs) != 0 ==> Largest(vs) in vs
  {
    if vs != [] {
      LargestReads(vs[1..]);
      HeadTail(vs);
    }
  }

  lemma NegotiatedReads(ch: ClientHello)
    ensures Negotiates(NegotiatedVersion(ch), ch)
  {
    LargestReads(ch.supportedVersions);
    hide Largest;
    if w :| w in ch.supportedVersions && w != 0 {
      assert w <= Largest(ch.supportedVersions);
    }
  }

  /** TLS 1.0 to 1.3 read 10 to 13, SSL 3 and 2 read s3 and s2, and any other version 00. */
  ghost predicate VersionReads(a: Byte, b: Byte, v: Uint16) {
    if 0x0301 <= v <= 0x0304 then a == 49 && b == 48 + (v - 0x0301)
    else if v == 0x0300 || v == 0x0002 then a == 115 && b == (if v == 0x0300 then 51 else 50)
    else a == 48 && b == 48
  }

  /** Two decimal digits. */
  ghost predicate CountReads(a: Byte, b: Byte, n: int) { 48 <= a <= 57 && 48 <= b <= 57 && 10 * (a - 48) + (b - 48) == n }

  lemma TwoDigitReads(n: nat)
    ensures CountReads(TwoDigit(n)[0], TwoDigit(n)[1], Min(n, 99))
  {
  }

  /** A first protocol of one or two bytes reads as it is, a longer one as its first and last. */
  ghost predicate AlpnReads(s: Octets, alpn: seq<Octets>) {
    if alpn == [] || alpn[0] == [] then s == [48, 48]
    else if alpn[0][0] >= 0x80 then s == [57, 57]
    else
      && |s| == Min(|alpn[0]|, 2) && s[0] == alpn[0][0]
      && (|s| == 2 ==> s[1] == alpn[0][|alpn[0]| - 1])
  }

  lemma AlpnCodeReads(alpn: seq<Octets>)
    ensures AlpnReads(AlpnCode(alpn), alpn)
  {
  }

  /** The readable first part. */
  ghost predicate PrefixReads(s: Octets, ch: ClientHello, transport: Byte) {
    && |s| >= 8 && s[0] == transport
    && VersionReads(s[1], s[2], NegotiatedVersion(ch))
    && s[3] == (if ch.hasSni then 100 else 105)
    && CountReads(s[4], s[5], Min(|ch.cipherSuites|, 99)) && CountReads(s[6], s[7], Min(|ch.extensions|, 99))
    && AlpnReads(s[8..], ch.alpn)
  }

  lemma Ja4AReads(ch: ClientHello, transport: Byte)
    ensures PrefixReads(Ja4A(ch, transport), ch, transport)
  {
    TwoDigitReads(|ch.cipherSuites|);
    TwoDigitReads(|ch.extensions|);
    AlpnCodeReads(ch.alpn);
    VersionCodeReads(NegotiatedVersion(ch));
    hide TwoDigit, AlpnCode, VersionCode, NegotiatedVersion, AlpnReads, CountReads, VersionReads;
    var s := Ja4A(ch, transport);
    assert s[8..] == AlpnCode(ch.alpn);
  }

  lemma VersionCodeReads(v: Uint16)
    ensures VersionReads(VersionCode(v)[0], VersionCode(v)[1], v)
  {
  }

  /** A prefix and two hashes, an underscore before each; cut from the right, since the prefix may hold one too. */
  ghost predicate CutInto(s: Octets, prefix: Octets, x: Octets, y: Octets) {
    var n := |s|;
    && n >= 26 && s[..n - 26] == prefix
    && s[n - 26] == 95 && s[n - 25..n - 13] == x
    && s[n - 13] == 95 && s[n - 12..] == y
  }

  lemma Ja4Cuts(sha: Digest, ch: ClientHello, transport: Byte)
    ensures CutInto(Ja4(sha, ch, transport), Ja4A(ch, transport), TruncHash(sha, CipherInput(ch)), TruncHash(sha, ExtensionInput(ch)))
  {
    hide Ja4A, TruncHash, CipherInput, ExtensionInput, CutInto;
    Joined(Ja4A(ch, transport), TruncHash(sha, CipherInput(ch)), TruncHash(sha, ExtensionInput(ch)));
  }

  lemma Joined(p: Octets, x: Octets, y: Octets)
    requires |x| == 12 && |y| == 12
    ensures CutInto(p + [UNDERSCORE] + x + [UNDERSCORE] + y, p, x, y)
  {
  }

  /** Every character of a JA4: the readable prefix and the two digests in hex. */
  lemma Ja4Reads(sha: Digest, ch: ClientHello, transport: Byte)
    ensures exists prefix, x, y ::
              && CutInto(Ja4(sha, ch, transport), prefix, x, y)
              && PrefixReads(prefix, ch, transport) && Negotiates(NegotiatedVersion(ch), ch)
              && DigestReads(x, sha, CipherInput(ch)) && DigestReads(y, sha, ExtensionInput(ch))
  {
    hide Ja4, Ja4A, TruncHash, DigestReads, PrefixReads, CipherInput, ExtensionInput, NegotiatedVersion, Negotiates;
    hide CutInto;
    Ja4AReads(ch, transport);
    NegotiatedReads(ch);
    TruncHashReads(sha, CipherInput(ch));
    TruncHashReads(sha, ExtensionInput(ch));
    Ja4Cuts(sha, ch, transport);
  }

  // --- what equal fingerprints have in common ---

  /** The six digest bytes shown tell `x` from `y`, and an empty input from one that is not. */
  ghost predicate Separates(sha: Digest, x: Octets, y: Octets) {
    && (x != [] && y != [] && sha(x)[..6] == sha(y)[..6] ==> x == y)
    && (x == [] && y != [] ==> sha(y)[..6] != [0, 0, 0, 0, 0, 0])
    && (y == [] && x != [] ==> sha(x)[..6] != [0, 0, 0, 0, 0, 0])
  }

  lemma ZerosSpelled(bs: Octets)
    requires |bs| == 6 && Spells([48, 48, 48, 48, 48, 48, 48, 48, 48, 48, 48, 48], bs)
    ensures bs == [0, 0, 0, 0, 0, 0]
  {
    HexValueLast([48], 48);
    HexValueLast([], 48);
    assert [] + [48] == [48] && [48] + [48] == [48, 48];
    hide HexValue, IsHex;
    forall i | 0 <= i < 6 ensures bs[i] == 0 {
      assert HexValue([48, 48]) == bs[i];
    }
  }

  lemma DigestsDecide(s: Octets, sha: Digest, x: Octets, y: Octets)
    requires DigestReads(s, sha, x) && DigestReads(s, sha, y) && Separates(sha, x, y)
    ensures x == y
  {
    hide Spells;
    if x != [] && y != [] {
      SpellsSame(s, sha(x)[..6], sha(y)[..6]);
    } else if x != [] {
      ZerosSpelled(sha(x)[..6]);
    } else if y != [] {
      ZerosSpelled(sha(y)[..6]);
    }
  }

  /** The readable parts of two hellos agree. */
  ghost predicate SamePrefix(a: ClientHello, t: Byte, b: ClientHello, u: Byte) {
    && t == u && VersionCode(NegotiatedVersion(a)) == VersionCode(NegotiatedVersion(b))
    && a.hasSni == b.hasSni
    && Min(|a.cipherSuites|, 99) == Min(|b.cipherSuites|, 99) && Min(|a.extensions|, 99) == Min(|b.extensions|, 99)
    && AlpnCode(a.alpn) == AlpnCode(b.alpn)
  }

  lemma PrefixExact(a: ClientHello, t: Byte, b: ClientHello, u: Byte)
    ensures Ja4A(a, t) == Ja4A(b, u) <==> SamePrefix(a, t, b, u)
  {
    TwoDigitReads(|a.cipherSuites|);
    TwoDigitReads(|b.cipherSuites|);
    TwoDigitReads(|a.extensions|);
    TwoDigitReads(|b.extensions|);
    TwoDigitCapped(|a.cipherSuites|);
    TwoDigitCapped(|b.cipherSuites|);
    TwoDigitCapped(|a.extensions|);
    TwoDigitCapped(|b.extensions|);
    PrefixParts(a, t);
    PrefixParts(b, u);
    hide TwoDigit, AlpnCode, VersionCode, NegotiatedVersion;
    if SamePrefix(a, t, b, u) {
      hide Min;
    }
  }

  lemma TwoDigitCapped(n: nat)
    ensures TwoDigit(n) == TwoDigit(Min(n, 99))
  {
  }

  lemma PrefixParts(ch: ClientHello, transport: Byte)
    ensures var s := Ja4A(ch, transport);
            && |s| >= 8 && s[0] == transport && s[1..3] == VersionCode(NegotiatedVersion(ch))
            && s[3] == (if ch.hasSni then 100 else 105)
            && s[4..6] == TwoDigit(|ch.cipherSuites|) && s[6..8] == TwoDigit(|ch.extensions|) && s[8..] == AlpnCode(ch.alpn)
  {
    hide TwoDigit, AlpnCode, VersionCode, NegotiatedVersion;
  }

  /** The extensions that take part are the same, each as often; and when there are any, so are the algorithms in order. */
  ghost predicate SameExtensions(a: ClientHello, b: ClientHello) {
    && (forall e: Uint16 | TakesPart(e) :: multiset(a.extensions)[e] == multiset(b.extensions)[e])
    && (SomeTakePart(a.extensions) ==> a.signatureAlgorithms == b.signatureAlgorithms)
  }

  lemma HashedExact(a: seq<Uint16>, b: seq<Uint16>)
    ensures multiset(HashedExtensions(a)) == multiset(HashedExtensions(b))
            <==> forall e: Uint16 | TakesPart(e) :: multiset(a)[e] == multiset(b)[e]
  {
    HashedTakePart(a);
    HashedTakePart(b);
    hide HashedExtensions, SomeTakePart;
    var x: seq<Uint16>, y: seq<Uint16> := HashedExtensions(a), HashedExtensions(b);
    if multiset(x) == multiset(y) {
      forall e: Uint16 | TakesPart(e) ensures multiset(a)[e] == multiset(b)[e] {
        assert multiset(x)[e] == multiset(y)[e];
      }
    }
    if forall e: Uint16 | TakesPart(e) :: multiset(a)[e] == multiset(b)[e] {
      forall e: Uint16 ensures multiset(x)[e] == multiset(y)[e] {
      }
    }
  }

  lemma ExtensionsExact(a: ClientHello, b: ClientHello)
    ensures ExtensionInput(a) == ExtensionInput(b) <==> SameExtensions(a, b)
  {
    hide ExtensionInput, HashedExtensions, Sorted, Lists, SomeTakePart, TakingPart, TakesPart, Ascending;
    var x: seq<Uint16>, y: seq<Uint16> := HashedExtensions(a.extensions), HashedExtensions(b.extensions);
    NothingHashed(a);
    NothingHashed(b);
    HashedExact(a.extensions, b.extensions);
    if x != [] && y != [] {
      SortedSame(x, y);
      ExtensionInputExact(a, b);
    } else {
      SameNone(x, y);
    }
  }

  lemma NothingHashed(ch: ClientHello)
    ensures ExtensionInput(ch) == [] <==> HashedExtensions(ch.extensions) == []
    ensures ExtensionInput(ch) == [] <==> !SomeTakePart(ch.extensions)
  {
    hide ExtensionInput, HashedExtensions, Sorted, Lists, SomeTakePart, TakingPart, TakesPart, Ascending;
    ExtensionInputReads(ch);
    HashedTakePart(ch.extensions);
  }

  lemma SameNone(x: seq<Uint16>, y: seq<Uint16>)
    requires x == [] || y == []
    ensures multiset(x) == multiset(y) <==> x == y
  {
    if multiset(x) == multiset(y) {
      SameLength(x, y);
    }
  }

  /**
   Under a digest whose first six bytes separate the inputs concerned, two fingerprints are equal exactly when
   the readable parts agree, the same ciphers are offered, and the extensions and algorithms that are hashed agree.
   */
  lemma Ja4Exact(sha: Digest, a: ClientHello, t: Byte, b: ClientHello, u: Byte)
    requires Separates(sha, CipherInput(a), CipherInput(b)) && Separates(sha, ExtensionInput(a), ExtensionInput(b))
    ensures Ja4(sha, a, t) == Ja4(sha, b, u)
            <==> SamePrefix(a, t, b, u) && multiset(a.cipherSuites) == multiset(b.cipherSuites) && SameExtensions(a, b)
  {
    hide Ja4, Ja4A, TruncHash, CipherInput, ExtensionInput, SamePrefix, SameExtensions, Separates, DigestReads, CutInto;
    PrefixExact(a, t, b, u);
    CipherInputExact(a, b);
    ExtensionsExact(a, b);
    if Ja4(sha, a, t) == Ja4(sha, b, u) {
      Ja4Cuts(sha, a, t);
      Ja4Cuts(sha, b, u);
      CutsSame(Ja4(sha, a, t), Ja4A(a, t), TruncHash(sha, CipherInput(a)), TruncHash(sha, ExtensionInput(a)),
               Ja4A(b, u), TruncHash(sha, CipherInput(b)), TruncHash(sha, ExtensionInput(b)));
      HashesDecide(sha, CipherInput(a), CipherInput(b));
      HashesDecide(sha, ExtensionInput(a), ExtensionInput(b));
    } else if Ja4A(a, t) == Ja4A(b, u) && CipherInput(a) == CipherInput(b) && ExtensionInput(a) == ExtensionInput(b) {
      Ja4Same(sha, a, t, b, u);
    }
  }

  lemma Ja4Same(sha: Digest, a: ClientHello, t: Byte, b: ClientHello, u: Byte)
    requires Ja4A(a, t) == Ja4A(b, u) && CipherInput(a) == CipherInput(b) && ExtensionInput(a) == ExtensionInput(b)
    ensures Ja4(sha, a, t) == Ja4(sha, b, u)
  {
    hide Ja4A, TruncHash, CipherInput, ExtensionInput;
  }

  lemma CutsSame(s: Octets, p: Octets, x: Octets, y: Octets, q: Octets, z: Octets, w: Octets)
    requires CutInto(s, p, x, y) && CutInto(s, q, z, w)
    ensures p == q && x == z && y == w
  {
  }

  lemma HashesDecide(sha: Digest, x: Octets, y: Octets)
    requires TruncHash(sha, x) == TruncHash(sha, y) && Separates(sha, x, y)
    ensures x == y
  {
    hide TruncHash, DigestReads, Separates;
    TruncHashReads(sha, x);
    TruncHashReads(sha, y);
    DigestsDecide(TruncHash(sha, x), sha, x, y);
  }

  // --- JA3 ---

  /** `s` is `n` in decimal, without leading zeros. */
  ghost predicate IsDecimal(s: Octets, n: nat) {
    && s != [] && (forall b | b in s :: 48 <= b <= 57) && (s[0] == 48 ==> |s| == 1) && DecimalValue(s) == n
  }

  lemma {:induction false} DecimalLead(n: nat)
    ensures Decimal(n)[0] == 48 ==> |Decimal(n)| == 1
    ensures n > 0 ==> Decimal(n)[0] != 48
  {
    if n >= 10 {
      DecimalLead(n / 10);
    }
  }

  lemma DecimalReads(n: nat)
    ensures IsDecimal(Decimal(n), n)
  {
    DecimalInverse(n);
    DecimalLead(n);
    hide Decimal, DecimalValue;
  }

  /** `s` lists the values of `vs` in order: each in decimal, dashes between, nothing for none. */
  ghost predicate ListsDecimals(s: Octets, vs: seq<nat>) {
    if vs == [] then s == []
    else
      var parts := Split(s, 45);
      |parts| == |vs| && forall i | 0 <= i < |vs| :: IsDecimal(parts[i], vs[i])
  }

  lemma {:induction false} DecimalsAt(vs: seq<nat>, i: nat)
    requires i < |vs|
    ensures Decimals(vs)[i] == Decimal(vs[i])
  {
    hide Decimal;
    if i > 0 {
      DecimalsAt(vs[1..], i - 1);
    }
  }

  lemma DecimalListReads(vs: seq<nat>)
    ensures ListsDecimals(DecimalList(vs), vs)
  {
    if vs != [] {
      DecimalsPlain(vs);
      SplitJoin(Decimals(vs), DASH);
      hide Decimals, Decimal, IsDecimal, Join, Split;
      forall i | 0 <= i < |vs| ensures IsDecimal(Decimals(vs)[i], vs[i]) {
        DecimalsAt(vs, i);
        DecimalReads(vs[i]);
      }
    }
  }

  /** The five fields of the string JA3 hashes, and the digest of it that JA3 spells. */
  lemma Ja3Reads(md5: Octets -> Octets, ch: ClientHello)
    ensures var parts := Split(Ja3Raw(ch), 44);
            && |parts| == 5 && IsDecimal(parts[0], ch.legacyVersion)
            && ListsDecimals(parts[1], ch.cipherSuites) && ListsDecimals(parts[2], ch.extensions)
            && ListsDecimals(parts[3], ch.supportedGroups) && ListsDecimals(parts[4], ch.pointFormats)
    ensures Spells(Ja3(md5, ch), md5(Ja3Raw(ch)))
  {
    Ja3RawSplits(ch);
    HexBytesRead(md5(Ja3Raw(ch)));
    hide Ja3Raw, DecimalList, ListsDecimals, IsDecimal, Split, Spells, HexBytes;
    DecimalReads(ch.legacyVersion);
    DecimalListReads(ch.cipherSuites);
    DecimalListReads(ch.extensions);
    DecimalListReads(ch.supportedGroups);
    DecimalListReads(ch.pointFormats);
  }
}
