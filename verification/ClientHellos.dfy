/** Parsing a TLS ClientHello (section 4.1.2 of RFC 8446) into the fields a fingerprint needs. */
module ClientHellos {
  import opened Bytes
  import opened Collections
  import opened Cursors

  const MAX_SERVER_NAME := 253
  const HANDSHAKE_CLIENT_HELLO := 0x01

  const EXT_SERVER_NAME: Uint16 := 0x0000
  const EXT_SUPPORTED_GROUPS: Uint16 := 0x000a
  const EXT_EC_POINT_FORMATS: Uint16 := 0x000b
  const EXT_SIGNATURE_ALGORITHMS: Uint16 := 0x000d
  const EXT_ALPN: Uint16 := 0x0010
  const EXT_SUPPORTED_VERSIONS: Uint16 := 0x002b
  const EXT_ECH: Uint16 := 0xfe0d

  datatype HelloError = Incomplete | NotClientHello | Malformed

  datatype ClientHello = ClientHello(
    legacyVersion: Uint16,
    cipherSuites: seq<Uint16>,
    extensions: seq<Uint16>,
    supportedGroups: seq<Uint16>,
    pointFormats: Octets,
    signatureAlgorithms: seq<Uint16>,
    supportedVersions: seq<Uint16>,
    alpn: seq<Octets>,
    serverName: Octets,
    hasSni: bool,
    hasEch: bool,
    echConfigId: Byte,
    echIsOuter: bool)

  const EMPTY_HELLO := ClientHello(0, [], [], [], [], [], [], [], [], false, false, 0, false)

  /** The 16 reserved values 0x0a0a, 0x1a1a, ... 0xfafa of section 2 of RFC 8701. */
  predicate IsGrease(v: Uint16) {
    v % 16 == 10 && v / 0x100 % 16 == 10 && v / 0x100 == v % 0x100
  }

  /** Exactly the values whose two bytes are equal and end in the digit a. */
  lemma GreaseValues(v: Uint16)
    ensures IsGrease(v) <==> exists n :: 0 <= n < 16 && v == 0x1010 * n + 0x0a0a
  {
    if IsGrease(v) {
      GreaseForm(v);
    }
    if n :| 0 <= n < 16 && v == 0x1010 * n + 0x0a0a {
      TwinBytes(v, 0x10 * n + 10);
    }
  }

  lemma TwinBytes(v: Uint16, b: Byte)
    requires v as int == 0x100 * b as int + b as int
    ensures v / 0x100 == b && v % 0x100 == b && v % 16 == b % 16
  {
    ByteParts(b as int, b as int);
    SameRemainder(v as int, b as int, 16 * b as int);
  }

  lemma ByteParts(high: int, low: int)
    requires 0 <= low < 0x100
    ensures (0x100 * high + low) / 0x100 == high && (0x100 * high + low) % 0x100 == low
  {
  }

  lemma SameRemainder(v: int, b: int, k: int)
    requires v == 16 * k + b
    ensures v % 16 == b % 16
  {
    assert v / 16 == k + b / 16;
  }

  lemma GreaseForm(v: Uint16)
    requires IsGrease(v)
    ensures exists n :: 0 <= n < 16 && v == 0x1010 * n + 0x0a0a
  {
    var b := v % 0x100;
    assert b % 16 == v % 16;
    var n := b / 16;
    assert b == 16 * n + 10 && v == 0x100 * b + b;
    assert 0 <= n < 16 && v == 0x1010 * n + 0x0a0a;
  }

  function StripGrease(vs: seq<Uint16>): (r: seq<Uint16>)
    ensures |r| <= |vs|
  {
    if vs == [] then [] else (if IsGrease(vs[0]) then [] else [vs[0]]) + StripGrease(vs[1..])
  }

  /** The big-endian pairs of a reader, an odd last byte left over. */
  function ReadList(s: Src): seq<Uint16>
    decreases |s.rest|
  {
    if |s.rest| < 2 || s.bad then [] else [s.ReadU16().0] + ReadList(s.ReadU16().1)
  }

  function ReadU16List(s: Src): seq<Uint16> { StripGrease(ReadList(s)) }

  /** A name type and a string with a two-byte length. */
  function ReadName(s: Src): (r: (Byte, Octets, Src))
    ensures s.rest != [] ==> |r.2.rest| < |s.rest|
  {
    var (nameType, s1) := s.ReadU8();
    var (length, s2) := s1.ReadU16();
    var (bytes, s3) := s2.ReadBytes(length);
    (nameType, bytes, s3)
  }

  /** The first non-empty host name of a server_name list, cut to a DNS name's length. */
  function ReadNames(s: Src, name: Octets): Octets
    decreases |s.rest|
  {
    if |s.rest| < 3 || s.bad then name
    else
      var (nameType, bytes, s1) := ReadName(s);
      ReadNames(s1, if nameType == 0 && name == [] then bytes[..Min(|bytes|, MAX_SERVER_NAME)] else name)
  }

  /** A string with a one-byte length. */
  function ReadString8(s: Src): (r: (Octets, Src))
    ensures s.rest != [] ==> |r.1.rest| < |s.rest|
  {
    var (length, s1) := s.ReadU8();
    s1.ReadBytes(length)
  }

  /** The non-empty strings of an ALPN list. */
  function ReadProtocols(s: Src): seq<Octets>
    decreases |s.rest|
  {
    if |s.rest| == 0 || s.bad then []
    else
      var (p, s1) := ReadString8(s);
      (if p != [] then [p] else []) + ReadProtocols(s1)
  }

  /** A reader over a vector with a two-byte, or a one-byte, length. */
  function Vector16(s: Src): Src { s.ReadU16().1.ReadSub(s.ReadU16().0).0 }

  function Vector8(s: Src): Src { s.ReadU8().1.ReadSub(s.ReadU8().0).0 }

  function ParseExtension(ch: ClientHello, etype: Uint16, data: Src): ClientHello {
    if etype == EXT_SERVER_NAME then ch.(hasSni := true, serverName := ReadNames(Vector16(data), ch.serverName))
    else if etype == EXT_SUPPORTED_GROUPS then ch.(supportedGroups := ReadU16List(Vector16(data)))
    else if etype == EXT_EC_POINT_FORMATS then ch.(pointFormats := ch.pointFormats + Vector8(data).rest)
    else if etype == EXT_SIGNATURE_ALGORITHMS then ch.(signatureAlgorithms := ReadU16List(Vector16(data)))
    else if etype == EXT_ALPN then ch.(alpn := ch.alpn + ReadProtocols(Vector16(data)))
    else if etype == EXT_ECH then
      var (helloType, d) := data.ReadU8();
      if helloType == 0
      then ch.(hasEch := true, echIsOuter := true, echConfigId := d.ReadBytes(4).1.ReadU8().0)
      else ch.(hasEch := true)
    else if etype == EXT_SUPPORTED_VERSIONS then
      ch.(supportedVersions := ch.supportedVersions + ReadU16List(Vector8(data)))
    else ch
  }

  /** One extension block: its number, unless GREASE, then its contents. */
  function AddExtension(ch: ClientHello, etype: Uint16, data: Src): ClientHello {
    ParseExtension(if IsGrease(etype) then ch else ch.(extensions := ch.extensions + [etype]), etype, data)
  }

  /** The number and contents of an extension block. */
  function ReadBlock(s: Src): (r: (Uint16, Src, Src))
    ensures s.rest != [] ==> |r.2.rest| < |s.rest|
  {
    var (etype, s1) := s.ReadU16();
    var (length, s2) := s1.ReadU16();
    var (data, s3) := s2.ReadSub(length);
    (etype, data, s3)
  }

  /** Every whole extension block; a corrupt one ends the walk without discarding the hello. */
  function ParseExtensions(ch: ClientHello, s: Src): ClientHello
    decreases |s.rest|
  {
    if |s.rest| < 4 || s.bad then ch
    else
      var (etype, data, s1) := ReadBlock(s);
      if s1.bad then ch else ParseExtensions(AddExtension(ch, etype, data), s1)
  }

  function Skip8(s: Src): Src { ReadString8(s).1 }

  /** The part of a hello before its extensions. */
  function ReadPrefix(s: Src): (ClientHello, Src) {
    var (version, s1) := s.ReadU16();
    var s2 := Skip8(s1.ReadBytes(32).1);
    var (cipherLength, s3) := s2.ReadU16();
    var (ciphers, s4) := s3.ReadSub(cipherLength);
    (EMPTY_HELLO.(legacyVersion := version, cipherSuites := ReadU16List(ciphers)), Skip8(s4))
  }

  function ParseBody(s: Src): Result<ClientHello, HelloError> {
    var (ch, s1) := ReadPrefix(s);
    if |s1.rest| == 0 then
      if s1.bad then Failure(Malformed) else Success(ch)
    else
      var (length, s2) := s1.ReadU16();
      var (exts, s3) := s2.ReadSub(length);
      if s3.bad then Failure(Malformed) else Success(ParseExtensions(ch, exts))
  }

  /** A ClientHello message outside any record, as CRYPTO frames carry it. */
  function ParseHandshake(body: Octets): Result<ClientHello, HelloError> {
    var (messageType, s1) := Src(body, false).ReadU8();
    if messageType != HANDSHAKE_CLIENT_HELLO then Failure(NotClientHello)
    else
      var (length, s2) := s1.ReadU24();
      if s2.bad || |s2.rest| < length then Failure(Incomplete)
      else ParseBody(s2.ReadSub(length).0)
  }

  // --- the parser as it runs ---

  lemma ReadU16ListStep(s: Src)
    ensures |s.rest| < 2 || s.bad ==> ReadU16List(s) == []
    ensures |s.rest| >= 2 && !s.bad ==>
            var (v, s1) := s.ReadU16();
            ReadU16List(s) == (if IsGrease(v) then [] else [v]) + ReadU16List(s1)
  {
  }

  method ReadListFrom(c: Cursor) returns (out: seq<Uint16>)
    requires c.Valid()
    modifies c
    ensures out == ReadU16List(old(c.View()))
  {
    hide ReadU16List, IsGrease;
    out := [];
    while c.Remaining() >= 2 && !c.bad
      invariant c.Valid() && out + ReadU16List(c.View()) == ReadU16List(old(c.View()))
      decreases c.Remaining()
    {
      ReadU16ListStep(c.View());
      ghost var done := out;
      var v := c.U16();
      if !IsGrease(v) {
        out := out + [v];
      }
      Assoc(done, if IsGrease(v) then [] else [v], ReadU16List(c.View()));
    }
    ReadU16ListStep(c.View());
  }

  method ReadNameFrom(c: Cursor) returns (nameType: Byte, bytes: Octets)
    requires c.Valid()
    modifies c
    ensures c.Valid() && (nameType, bytes, c.View()) == ReadName(old(c.View()))
  {
    nameType := c.U8();
    var length := c.U16();
    bytes := c.Bytes(length);
  }

  method ReadNamesFrom(c: Cursor, name: Octets) returns (out: Octets)
    requires c.Valid()
    modifies c
    ensures out == ReadNames(old(c.View()), name)
  {
    hide ReadName;
    out := name;
    while c.Remaining() >= 3 && !c.bad
      invariant c.Valid() && ReadNames(c.View(), out) == ReadNames(old(c.View()), name)
      decreases c.Remaining()
    {
      var nameType, bytes := ReadNameFrom(c);
      if nameType == 0 && out == [] {
        out := bytes[..Min(|bytes|, MAX_SERVER_NAME)];
      }
    }
  }

  method ReadString8From(c: Cursor) returns (p: Octets)
    requires c.Valid()
    modifies c
    ensures c.Valid() && (p, c.View()) == ReadString8(old(c.View()))
  {
    var length := c.U8();
    p := c.Bytes(length);
  }

  method ReadProtocolsFrom(c: Cursor) returns (out: seq<Octets>)
    requires c.Valid()
    modifies c
    ensures out == ReadProtocols(old(c.View()))
  {
    hide ReadString8;
    out := [];
    while c.Remaining() > 0 && !c.bad
      invariant c.Valid() && out + ReadProtocols(c.View()) == ReadProtocols(old(c.View()))
      decreases c.Remaining()
    {
      ghost var done := out;
      var p := ReadString8From(c);
      if p != [] {
        out := out + [p];
      }
      Assoc(done, if p != [] then [p] else [], ReadProtocols(c.View()));
    }
  }

  lemma ReadU8Splits(s: Src)
    requires |s.rest| > 0
    ensures s.rest == [s.ReadU8().0] + s.ReadU8().1.rest
  {
  }

  method ReadAllFrom(c: Cursor) returns (out: Octets)
    requires c.Valid()
    modifies c
    ensures out == old(c.View()).rest
  {
    out := [];
    while c.Remaining() > 0 && !c.bad
      invariant c.Valid() && out + c.View().rest == old(c.View()).rest
      decreases c.Remaining()
    {
      ReadU8Splits(c.View());
      ghost var done := out;
      var b := c.U8();
      out := out + [b];
      Assoc(done, [b], c.View().rest);
    }
  }

  method VectorFrom(data: Cursor, wide: bool) returns (c: Cursor)
    requires data.Valid()
    modifies data
    ensures data.Valid() && c.Valid() && fresh(c)
    ensures c.View() == if wide then Vector16(old(data.View())) else Vector8(old(data.View()))
  {
    if wide {
      var n := data.U16();
      c := data.Sub(n);
    } else {
      var n := data.U8();
      c := data.Sub(n);
    }
  }

  method DecodeExtension(ch: ClientHello, etype: Uint16, data: Cursor) returns (out: ClientHello)
    requires data.Valid()
    modifies data
    ensures out == ParseExtension(ch, etype, old(data.View()))
  {
    hide ReadNames, ReadU16List, ReadProtocols, Vector16, Vector8;
    out := ch;
    if etype == EXT_SERVER_NAME {
      var list := VectorFrom(data, true);
      var name := ReadNamesFrom(list, ch.serverName);
      out := ch.(hasSni := true, serverName := name);
    } else if etype == EXT_SUPPORTED_GROUPS {
      var list := VectorFrom(data, true);
      var groups := ReadListFrom(list);
      out := ch.(supportedGroups := groups);
    } else if etype == EXT_EC_POINT_FORMATS {
      var pf := VectorFrom(data, false);
      var formats := ReadAllFrom(pf);
      out := ch.(pointFormats := ch.pointFormats + formats);
    } else if etype == EXT_SIGNATURE_ALGORITHMS {
      var list := VectorFrom(data, true);
      var algorithms := ReadListFrom(list);
      out := ch.(signatureAlgorithms := algorithms);
    } else if etype == EXT_ALPN {
      var list := VectorFrom(data, true);
      var protocols := ReadProtocolsFrom(list);
      out := ch.(alpn := ch.alpn + protocols);
    } else if etype == EXT_ECH {
      out := ch.(hasEch := true);
      var helloType := data.U8();
      if helloType == 0 {
        data.Skip(4); // HPKE cipher suite
        var id := data.U8();
        out := out.(echIsOuter := true, echConfigId := id);
      }
    } else if etype == EXT_SUPPORTED_VERSIONS {
      var list := VectorFrom(data, false);
      var versions := ReadListFrom(list);
      out := ch.(supportedVersions := ch.supportedVersions + versions);
    }
  }

  method ReadBlockFrom(c: Cursor) returns (etype: Uint16, data: Cursor)
    requires c.Valid()
    modifies c
    ensures c.Valid() && data.Valid() && fresh(data)
    ensures (etype, data.View(), c.View()) == ReadBlock(old(c.View()))
  {
    etype := c.U16();
    var length := c.U16();
    data := c.Sub(length);
  }

  method DecodeExtensions(ch: ClientHello, exts: Cursor) returns (out: ClientHello)
    requires exts.Valid()
    modifies exts
    ensures out == ParseExtensions(ch, old(exts.View()))
  {
    hide ParseExtension, ReadBlock, IsGrease;
    out := ch;
    while exts.Remaining() >= 4 && !exts.bad
      invariant exts.Valid() && ParseExtensions(out, exts.View()) == ParseExtensions(ch, old(exts.View()))
      decreases exts.Remaining()
    {
      var etype, data := ReadBlockFrom(exts);
      if exts.bad {
        break;
      }
      if !IsGrease(etype) {
        out := out.(extensions := out.extensions + [etype]);
      }
      out := DecodeExtension(out, etype, data);
    }
  }

  method DecodePrefix(c: Cursor) returns (ch: ClientHello)
    requires c.Valid()
    modifies c
    ensures c.Valid() && (ch, c.View()) == ReadPrefix(old(c.View()))
  {
    hide ReadU16List, ReadString8;
    var version := c.U16();
    c.Skip(32); // random
    var _ := ReadString8From(c); // legacy_session_id
    var cipherLength := c.U16();
    var ciphers := c.Sub(cipherLength);
    var suites := ReadListFrom(ciphers);
    var _ := ReadString8From(c); // legacy_compression_methods
    ch := EMPTY_HELLO.(legacyVersion := version, cipherSuites := suites);
  }

  method DecodeBody(c: Cursor) returns (r: Result<ClientHello, HelloError>)
    requires c.Valid()
    modifies c
    ensures r == ParseBody(old(c.View()))
  {
    hide ReadPrefix, ParseExtensions;
    var ch := DecodePrefix(c);
    if c.Remaining() > 0 {
      var length := c.U16();
      var exts := c.Sub(length);
      ch := DecodeExtensions(ch, exts);
    }
    return if c.bad then Failure(Malformed) else Success(ch);
  }

  method DecodeHandshake(body: Octets) returns (r: Result<ClientHello, HelloError>)
    ensures r == ParseHandshake(body)
  {
    hide ParseBody;
    var hs := new Cursor(body);
    var messageType := hs.U8();
    if messageType != HANDSHAKE_CLIENT_HELLO {
      return Failure(NotClientHello);
    }
    var length := hs.U24();
    if hs.bad || hs.Remaining() < length {
      return Failure(Incomplete);
    }
    var c := hs.Sub(length);
    r := DecodeBody(c);
  }
}
