/**
 The QUIC Initial key schedule (section 5.2 of RFC 9001). HMAC-SHA-256, one AES block and
 AES-128-GCM are parameters: all that is assumed of them is stated by `Sound`.
 */
module Keys {
  import opened Bytes

  const OVERHEAD := 16
  const BLOCK := 16
  const DIGEST := 32

  datatype Primitives = Primitives(
    hmac: (Octets, Octets) -> Octets,
    aes: (Octets, Octets) -> Octets,
    seal: (Octets, Octets, Octets, Octets) -> Octets,
    open: (Octets, Octets, Octets, Octets) -> Option<Octets>)
  {
    /** Fixed output lengths, and opening undoes sealing under the same key, nonce and header. */
    ghost predicate Sound() {
      && (forall k, m :: |hmac(k, m)| == 32)
      && (forall k, b :: |aes(k, b)| == 16)
      && (forall k, n, p, h :: |seal(k, n, p, h)| == |p| + 16)
      && (forall k, n, p, h :: open(k, n, seal(k, n, p, h), h) == Some(p))
    }
  }

  /** The assumptions can be met: a seal that appends a constant tag satisfies them all. */
  lemma SoundPrimitivesExist() returns (c: Primitives)
    ensures c.Sound()
  {
    c := Primitives(
      (k: Octets, m: Octets) => Zeros(DIGEST),
      (k: Octets, b: Octets) => Zeros(BLOCK),
      (k: Octets, n: Octets, p: Octets, h: Octets) => p + Zeros(OVERHEAD),
      (k: Octets, n: Octets, x: Octets, h: Octets) => if |x| < OVERHEAD then None else Some(x[..|x| - OVERHEAD]));
    forall k: Octets, n: Octets, p: Octets, h: Octets
      ensures c.open(k, n, c.seal(k, n, p, h), h) == Some(p)
    {
      assert (p + Zeros(OVERHEAD))[..|p|] == p;
    }
  }

  // --- HKDF (RFC 5869) ---

  /** T(i) of section 2.3 of RFC 5869. */
  function Block(c: Primitives, prk: Octets, info: Octets, i: nat): Octets {
    if i == 0 then [] else c.hmac(prk, Block(c, prk, info, i - 1) + info + [i % 256])
  }

  /** T(1) | T(2) | ... | T(n). */
  function Blocks(c: Primitives, prk: Octets, info: Octets, n: nat): (s: Octets)
    requires c.Sound()
    ensures |s| == DIGEST * n
  {
    if n == 0 then [] else Blocks(c, prk, info, n - 1) + Block(c, prk, info, n)
  }

  function HkdfExpand(c: Primitives, prk: Octets, info: Octets, length: nat): (s: Octets)
    requires c.Sound()
    ensures |s| == length
  {
    Blocks(c, prk, info, (length + DIGEST - 1) / DIGEST)[..length]
  }

  lemma {:induction false} BlocksPrefix(c: Primitives, prk: Octets, info: Octets, n: nat, m: nat)
    requires c.Sound() && n <= m
    ensures Blocks(c, prk, info, m)[..DIGEST * n] == Blocks(c, prk, info, n)
    decreases m
  {
    if n < m {
      BlocksPrefix(c, prk, info, n, m - 1);
    }
  }

  /** A shorter expansion is a prefix of a longer one. */
  lemma ExpandPrefix(c: Primitives, prk: Octets, info: Octets, short: nat, long: nat)
    requires c.Sound() && short <= long
    ensures HkdfExpand(c, prk, info, long)[..short] == HkdfExpand(c, prk, info, short)
  {
    var n, m := (short + DIGEST - 1) / DIGEST, (long + DIGEST - 1) / DIGEST;
    BlocksPrefix(c, prk, info, n, m);
    assert short <= DIGEST * n;
  }

  method Expand(c: Primitives, prk: Octets, info: Octets, length: nat) returns (out: Octets)
    requires c.Sound()
    ensures out == HkdfExpand(c, prk, info, length)
  {
    out := [];
    var block := [];
    var counter: nat := 1;
    while |out| < length
      invariant counter >= 1 && block == Block(c, prk, info, counter - 1)
      invariant out == Blocks(c, prk, info, counter - 1)
      invariant counter > 1 ==> DIGEST * (counter - 2) < length
      decreases length - |out|
    {
      block := c.hmac(prk, block + info + [counter % 256]);
      out := out + block;
      counter := counter + 1;
    }
    assert counter - 1 == (length + DIGEST - 1) / DIGEST;
    out := out[..length];
  }

  function Ascii(s: string): (r: Octets)
    ensures |r| == |s|
  {
    seq(|s|, i requires 0 <= i < |s| => s[i] as int % 256)
  }

  /** HKDF-Expand-Label of section 7.1 of RFC 8446 with an empty context. */
  function HkdfExpandLabel(c: Primitives, secret: Octets, name: string, length: Uint16): (s: Octets)
    requires c.Sound()
    ensures |s| == length
  {
    var full := Ascii("tls13 " + name);
    HkdfExpand(c, secret, [length / 0x100, length % 0x100, |full| % 256] + full + [0], length)
  }

  // --- versions ---

  const VERSION1: Uint32 := 0x00000001
  const VERSION2: Uint32 := 0x6b3343cf

  const INITIAL_SALT_V1: Octets := [
    0x38, 0x76, 0x2c, 0xf7, 0xf5, 0x59, 0x34, 0xb3, 0x4d, 0x17,
    0x9a, 0xe6, 0xa4, 0xc8, 0x0c, 0xad, 0xcc, 0xbb, 0x7f, 0x0a]

  const INITIAL_SALT_V2: Octets := [
    0x0d, 0xed, 0xe3, 0xde, 0xf7, 0x00, 0xa6, 0xdb, 0x81, 0x93,
    0x81, 0xbe, 0x6e, 0x26, 0x9d, 0xcb, 0xf9, 0xbd, 0x2e, 0xd9]

  /** The parameters of a QUIC version; `initialType` is the two-bit packet type. */
  datatype Params = Params(salt: Octets, keyLabel: string, ivLabel: string, hpLabel: string, initialType: nat)

  function ParamsFor(version: Uint32): Option<Params> {
    if version == VERSION1 then Some(Params(INITIAL_SALT_V1, "quic key", "quic iv", "quic hp", 0))
    else if version == VERSION2 then Some(Params(INITIAL_SALT_V2, "quicv2 key", "quicv2 iv", "quicv2 hp", 1))
    else None
  }

  datatype ClientKeys = ClientKeys(key: Octets, iv: Octets, hp: Octets)

  function DeriveClientInitialKeys(c: Primitives, p: Params, dcid: Octets): (k: ClientKeys)
    requires c.Sound()
    ensures |k.key| == 16 && |k.iv| == 12 && |k.hp| == 16
  {
    var clientSecret := HkdfExpandLabel(c, c.hmac(p.salt, dcid), "client in", 32);
    ClientKeys(HkdfExpandLabel(c, clientSecret, p.keyLabel, 16),
               HkdfExpandLabel(c, clientSecret, p.ivLabel, 12),
               HkdfExpandLabel(c, clientSecret, p.hpLabel, 16))
  }

  // --- the equations of the two versions, written out ---

  /** The first `n` bytes of one HMAC over the length, a label after its own length, no context, and the block number. */
  function Expanded(c: Primitives, secret: Octets, full: Octets, n: Byte): (k: Octets)
    requires c.Sound() && n <= DIGEST && |full| < 0x100
  {
    c.hmac(secret, [0, n, |full|] + full + [0, 1])[..n]
  }

  const TLS13_CLIENT_IN: Octets := [116, 108, 115, 49, 51, 32, 99, 108, 105, 101, 110, 116, 32, 105, 110]
  const TLS13_QUIC_KEY: Octets := [116, 108, 115, 49, 51, 32, 113, 117, 105, 99, 32, 107, 101, 121]
  const TLS13_QUIC_IV: Octets := [116, 108, 115, 49, 51, 32, 113, 117, 105, 99, 32, 105, 118]
  const TLS13_QUIC_HP: Octets := [116, 108, 115, 49, 51, 32, 113, 117, 105, 99, 32, 104, 112]
  const TLS13_QUICV2_KEY: Octets := [116, 108, 115, 49, 51, 32, 113, 117, 105, 99, 118, 50, 32, 107, 101, 121]
  const TLS13_QUICV2_IV: Octets := [116, 108, 115, 49, 51, 32, 113, 117, 105, 99, 118, 50, 32, 105, 118]
  const TLS13_QUICV2_HP: Octets := [116, 108, 115, 49, 51, 32, 113, 117, 105, 99, 118, 50, 32, 104, 112]

  /** The client's secret: extracted with the salt from the connection ID, then expanded under "tls13 client in". */
  function ClientSecret(c: Primitives, salt: Octets, dcid: Octets): Octets
    requires c.Sound()
  {
    Expanded(c, c.hmac(salt, dcid), TLS13_CLIENT_IN, 32)
  }

  /** The client's Initial keys of version 1 (section 5.2 of RFC 9001). */
  function ClientKeysV1(c: Primitives, dcid: Octets): (k: ClientKeys)
    requires c.Sound()
    ensures |k.key| == 16 && |k.iv| == 12 && |k.hp| == 16
  {
    var salt: Octets := [
      0x38, 0x76, 0x2c, 0xf7, 0xf5, 0x59, 0x34, 0xb3, 0x4d, 0x17,
      0x9a, 0xe6, 0xa4, 0xc8, 0x0c, 0xad, 0xcc, 0xbb, 0x7f, 0x0a];
    var secret := ClientSecret(c, salt, dcid);
    ClientKeys(Expanded(c, secret, TLS13_QUIC_KEY, 16),
               Expanded(c, secret, TLS13_QUIC_IV, 12),
               Expanded(c, secret, TLS13_QUIC_HP, 16))
  }

  /** The client's Initial keys of version 2 (section 3.3 of RFC 9369): another salt and other labels, but the same secret label. */
  function ClientKeysV2(c: Primitives, dcid: Octets): (k: ClientKeys)
    requires c.Sound()
    ensures |k.key| == 16 && |k.iv| == 12 && |k.hp| == 16
  {
    var salt: Octets := [
      0x0d, 0xed, 0xe3, 0xde, 0xf7, 0x00, 0xa6, 0xdb, 0x81, 0x93,
      0x81, 0xbe, 0x6e, 0x26, 0x9d, 0xcb, 0xf9, 0xbd, 0x2e, 0xd9];
    var secret := ClientSecret(c, salt, dcid);
    ClientKeys(Expanded(c, secret, TLS13_QUICV2_KEY, 16),
               Expanded(c, secret, TLS13_QUICV2_IV, 12),
               Expanded(c, secret, TLS13_QUICV2_HP, 16))
  }

  lemma OneBlock(c: Primitives, prk: Octets, info: Octets, n: nat)
    requires c.Sound() && 0 < n <= DIGEST
    ensures HkdfExpand(c, prk, info, n) == c.hmac(prk, info + [1])[..n]
  {
    assert (n + DIGEST - 1) / DIGEST == 1;
    assert Block(c, prk, info, 1) == c.hmac(prk, info + [1]) by {
      assert [] + info + [1] == info + [1];
    }
    assert Blocks(c, prk, info, 1) == Block(c, prk, info, 1);
  }

  lemma LabelExpands(c: Primitives, secret: Octets, name: string, full: Octets, n: Byte)
    requires c.Sound() && 0 < n <= DIGEST && |full| < 0x100 && Ascii("tls13 " + name) == full
    ensures HkdfExpandLabel(c, secret, name, n) == Expanded(c, secret, full, n)
  {
    hide HkdfExpand, Ascii;
    var info := [0, n, |full|] + full;
    OneBlock(c, secret, info + [0], n);
    assert info + [0] + [1] == info + [0, 1];
  }

  lemma AsciiIs(s: string, bytes: Octets)
    requires |s| == |bytes| && forall i | 0 <= i < |s| :: s[i] as int == bytes[i]
    ensures Ascii(s) == bytes
  {
  }

  lemma Prefixed(name: string, rest: Octets)
    requires Ascii(name) == rest
    ensures Ascii("tls13 " + name) == [116, 108, 115, 49, 51, 32] + rest
  {
    AsciiIs("tls13 ", [116, 108, 115, 49, 51, 32]);
    var s, all := "tls13 " + name, [116, 108, 115, 49, 51, 32] + rest;
    assert forall i | 0 <= i < |s| :: s[i] == if i < 6 then "tls13 "[i] else name[i - 6];
    assert Ascii(s) == all;
  }

  lemma ClientInSpelled()
    ensures Ascii("tls13 " + "client in") == TLS13_CLIENT_IN
  {
    AsciiIs("client in", [99, 108, 105, 101, 110, 116, 32, 105, 110]);
    hide Ascii;
    Prefixed("client in", [99, 108, 105, 101, 110, 116, 32, 105, 110]);
  }

  lemma QuicKeySpelled()
    ensures Ascii("tls13 " + "quic key") == TLS13_QUIC_KEY
  {
    AsciiIs("quic key", [113, 117, 105, 99, 32, 107, 101, 121]);
    hide Ascii;
    Prefixed("quic key", [113, 117, 105, 99, 32, 107, 101, 121]);
  }

  lemma QuicIvSpelled()
    ensures Ascii("tls13 " + "quic iv") == TLS13_QUIC_IV
  {
    AsciiIs("quic iv", [113, 117, 105, 99, 32, 105, 118]);
    hide Ascii;
    Prefixed("quic iv", [113, 117, 105, 99, 32, 105, 118]);
  }

  lemma QuicHpSpelled()
    ensures Ascii("tls13 " + "quic hp") == TLS13_QUIC_HP
  {
    AsciiIs("quic hp", [113, 117, 105, 99, 32, 104, 112]);
    hide Ascii;
    Prefixed("quic hp", [113, 117, 105, 99, 32, 104, 112]);
  }

  lemma Quicv2KeySpelled()
    ensures Ascii("tls13 " + "quicv2 key") == TLS13_QUICV2_KEY
  {
    AsciiIs("quicv2 key", [113, 117, 105, 99, 118, 50, 32, 107, 101, 121]);
    hide Ascii;
    Prefixed("quicv2 key", [113, 117, 105, 99, 118, 50, 32, 107, 101, 121]);
  }

  lemma Quicv2IvSpelled()
    ensures Ascii("tls13 " + "quicv2 iv") == TLS13_QUICV2_IV
  {
    AsciiIs("quicv2 iv", [113, 117, 105, 99, 118, 50, 32, 105, 118]);
    hide Ascii;
    Prefixed("quicv2 iv", [113, 117, 105, 99, 118, 50, 32, 105, 118]);
  }

  lemma Quicv2HpSpelled()
    ensures Ascii("tls13 " + "quicv2 hp") == TLS13_QUICV2_HP
  {
    AsciiIs("quicv2 hp", [113, 117, 105, 99, 118, 50, 32, 104, 112]);
    hide Ascii;
    Prefixed("quicv2 hp", [113, 117, 105, 99, 118, 50, 32, 104, 112]);
  }

  lemma SecretExpands(c: Primitives, salt: Octets, dcid: Octets)
    requires c.Sound()
    ensures HkdfExpandLabel(c, c.hmac(salt, dcid), "client in", 32) == ClientSecret(c, salt, dcid)
  {
    ClientInSpelled();
    hide Ascii, HkdfExpandLabel, Expanded;
    LabelExpands(c, c.hmac(salt, dcid), "client in", TLS13_CLIENT_IN, 32);
  }

  /** For either version the key schedule is that of its equations; there are no other versions. */
  lemma KeysExact(c: Primitives, version: Uint32, dcid: Octets)
    requires c.Sound()
    ensures version == 0x00000001 ==>
              && ParamsFor(version).Some? && ParamsFor(version).value.initialType == 0
              && DeriveClientInitialKeys(c, ParamsFor(version).value, dcid) == ClientKeysV1(c, dcid)
    ensures version == 0x6b3343cf ==>
              && ParamsFor(version).Some? && ParamsFor(version).value.initialType == 1
              && DeriveClientInitialKeys(c, ParamsFor(version).value, dcid) == ClientKeysV2(c, dcid)
    ensures version != 0x00000001 && version != 0x6b3343cf ==> ParamsFor(version).None?
  {
    hide Ascii, HkdfExpandLabel, Expanded, ClientSecret;
    if version == 0x00000001 {
      SecretExpands(c, INITIAL_SALT_V1, dcid);
      var secret := ClientSecret(c, INITIAL_SALT_V1, dcid);
      QuicKeySpelled();
      LabelExpands(c, secret, "quic key", TLS13_QUIC_KEY, 16);
      QuicIvSpelled();
      LabelExpands(c, secret, "quic iv", TLS13_QUIC_IV, 12);
      QuicHpSpelled();
      LabelExpands(c, secret, "quic hp", TLS13_QUIC_HP, 16);
    } else if version == 0x6b3343cf {
      SecretExpands(c, INITIAL_SALT_V2, dcid);
      var secret := ClientSecret(c, INITIAL_SALT_V2, dcid);
      Quicv2KeySpelled();
      LabelExpands(c, secret, "quicv2 key", TLS13_QUICV2_KEY, 16);
      Quicv2IvSpelled();
      LabelExpands(c, secret, "quicv2 iv", TLS13_QUICV2_IV, 12);
      Quicv2HpSpelled();
      LabelExpands(c, secret, "quicv2 hp", TLS13_QUICV2_HP, 16);
    }
  }

  /** The IV with the packet number xored into its last bytes (section 5.3 of RFC 9001). */
  function Nonce(iv: Octets, packetNumber: nat): (n: Octets)
    requires |iv| >= 8
    ensures |n| == |iv|
  {
    var padded := Zeros(|iv| - 8) + BigEndian(packetNumber, 8);
    seq(|iv|, i requires 0 <= i < |iv| => XorByte(padded[i], iv[i]))
  }

  /** The nonce byte by byte: only the last eight bytes of the IV change, by the number's bytes, most significant first. */
  function NonceBytes(iv: Octets, number: nat): (n: Octets)
    requires |iv| >= 8
  {
    seq(|iv|, i requires 0 <= i < |iv| =>
      XorByte(if i < |iv| - 8 then 0 else number / Pow256(|iv| - 1 - i) % 256, iv[i]))
  }

  lemma NonceIs(iv: Octets, number: nat)
    requires |iv| >= 8
    ensures Nonce(iv, number) == NonceBytes(iv, number)
  {
    hide XorByte, BigEndian, Pow256;
    forall i | 0 <= i < |iv| ensures Nonce(iv, number)[i] == NonceBytes(iv, number)[i] {
      if i >= |iv| - 8 {
        BigEndianAt(number, 8, i - (|iv| - 8));
      }
    }
  }

  /** Different packet numbers never share a nonce. */
  lemma NonceInjective(iv: Octets, a: Uint64, b: Uint64)
    requires |iv| >= 8
    requires Nonce(iv, a) == Nonce(iv, b)
    ensures a == b
  {
    hide Nonce, BigEndian, XorByte, Pow256;
    var za, zb := BigEndian(a, 8), BigEndian(b, 8);
    var n := |iv| - 8;
    forall i | 0 <= i < 8 ensures za[i] == zb[i] {
      NonceAt(iv, a, i);
      NonceAt(iv, b, i);
      MaskedSame(za[i], zb[i], iv[n + i]);
    }
    assert za == zb;
    EightBytes();
    BigEndianInverse(a, 8);
    BigEndianInverse(b, 8);
  }

  lemma MaskedSame(x: Byte, y: Byte, mask: Byte)
    requires XorByte(x, mask) == XorByte(y, mask)
    ensures x == y
  {
    XorInvolution(x, mask);
    XorInvolution(y, mask);
    hide Xor;
  }

  lemma NonceAt(iv: Octets, number: Uint64, i: nat)
    requires |iv| >= 8 && i < 8
    ensures |Nonce(iv, number)| == |iv|
    ensures Nonce(iv, number)[|iv| - 8 + i] == XorByte(BigEndian(number, 8)[i], iv[|iv| - 8 + i])
  {
    hide XorByte, BigEndian;
  }

  lemma EightBytes()
    ensures Pow256(8) == 0x1_0000_0000_0000_0000
  {
    assert Pow256(4) == 0x1_0000_0000 by { assert Pow256(2) == 0x1_0000; }
    assert Pow256(6) == 0x1_0000_0000_0000;
  }
}
