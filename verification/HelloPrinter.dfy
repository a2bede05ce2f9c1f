/** The byte builder of the synthetic capture and the hello it prints with it. */
module HelloPrinter {
  import opened Bytes
  import opened Collections
  import opened Cursors
  import opened ClientHellos
  import opened HelloBuild

  class Builder {
    var b: Octets

    constructor ()
      ensures b == []
    {
      b := [];
    }

    method U8(v: Byte)
      modifies this
      ensures b == old(b) + [v]
    {
      b := b + [v];
    }

    method U16(v: Uint16)
      modifies this
      ensures b == old(b) + U16Bytes(v)
    {
      b := b + U16Bytes(v);
    }

    method Raw(p: Octets)
      modifies this
      ensures b == old(b) + p
    {
      b := b + p;
    }

    /** Append the bytes of an inner builder behind their length in `n` bytes. */
    method LenPrefixed(n: nat, inner: Builder)
      requires 1 <= n <= 3 && inner != this
      modifies this
      ensures b == old(b) + Vector(n, inner.b)
    {
      Raw(Prefix(n, |inner.b|));
      Raw(inner.b);
      assert b == old(b) + Vector(n, inner.b);
    }

    method List(vs: seq<Uint16>)
      modifies this
      ensures b == old(b) + ListBytes(vs)
    {
      var i := 0;
      while i < |vs|
        invariant 0 <= i <= |vs| && b + ListBytes(vs[i..]) == old(b) + ListBytes(vs)
      {
        hide U16Bytes;
        Assoc(b, U16Bytes(vs[i]), ListBytes(vs[i + 1..]));
        assert vs[i..][1..] == vs[i + 1..];
        U16(vs[i]);
        i := i + 1;
      }
      assert vs[i..] == [] && b + [] == b;
    }

    method Strings(ps: seq<Octets>)
      modifies this
      ensures b == old(b) + StringsBytes(ps)
    {
      hide Vector;
      var i := 0;
      while i < |ps|
        invariant 0 <= i <= |ps| && b + StringsBytes(ps[i..]) == old(b) + StringsBytes(ps)
      {
        Assoc(b, Vector(1, ps[i]), StringsBytes(ps[i + 1..]));
        assert ps[i..][1..] == ps[i + 1..];
        var n := new Builder();
        n.Raw(ps[i]);
        assert [] + ps[i] == ps[i];
        LenPrefixed(1, n);
        i := i + 1;
      }
      assert ps[i..] == [] && b + [] == b;
    }

    /** One extension block, when it is present. */
    method Extension(present: bool, etype: Uint16, data: Builder)
      requires data != this
      modifies this
      ensures b == old(b) + BlocksBytes(When(present, Block(etype, data.b)))
    {
      hide Vector;
      if present {
        U16(etype);
        LenPrefixed(2, data);
      }
      BlocksOfWhen(present, Block(etype, data.b));
    }
  }

  lemma BlocksOfWhen(present: bool, b: Block)
    ensures BlocksBytes(When(present, b)) == if present then BlockBytes(b) else []
  {
    hide BlockBytes;
    if present {
      assert [b][1..] == [];
      assert BlockBytes(b) + [] == BlockBytes(b);
    }
  }

  lemma {:induction false} BlocksAppend(a: seq<Block>, b: seq<Block>)
    ensures BlocksBytes(a + b) == BlocksBytes(a) + BlocksBytes(b)
  {
    hide BlockBytes;
    if a == [] {
      assert a + b == b;
    } else {
      assert (a + b)[1..] == a[1..] + b;
      BlocksAppend(a[1..], b);
    }
  }

  /** A vector of `inner`, as the content of an extension. */
  method Wrapped(n: nat, inner: Builder) returns (e: Builder)
    requires 1 <= n <= 3
    ensures fresh(e) && e.b == Vector(n, inner.b)
  {
    e := new Builder();
    e.LenPrefixed(n, inner);
    assert [] + Vector(n, inner.b) == Vector(n, inner.b);
  }

  method ListData(n: nat, vs: seq<Uint16>) returns (e: Builder)
    requires 1 <= n <= 3
    ensures fresh(e) && e.b == Vector(n, ListBytes(vs))
  {
    var l := new Builder();
    l.List(vs);
    assert [] + ListBytes(vs) == ListBytes(vs);
    e := Wrapped(n, l);
  }

  method SniData(s: HelloSpec) returns (e: Builder)
    ensures fresh(e) && e.b == SniBlock(s).data
  {
    hide Vector;
    var n := new Builder();
    n.Raw(s.sni);
    assert [] + s.sni == s.sni;
    var list := new Builder();
    list.U8(0); // host_name
    list.LenPrefixed(2, n);
    assert [] + [0] == [0];
    e := Wrapped(2, list);
  }

  method EchData() returns (e: Builder)
    ensures fresh(e) && e.b == EchBytes()
  {
    hide Vector;
    var enc := new Builder();
    var payload := new Builder();
    enc.Raw(Zeros(32));
    payload.Raw(Zeros(160));
    assert [] + Zeros(32) == Zeros(32) && [] + Zeros(160) == Zeros(160);
    e := new Builder();
    e.U8(0); // outer
    e.U16(1); // HKDF-SHA256
    e.U16(1); // AES-128-GCM
    e.U8(ECH_CONFIG_ID);
    e.LenPrefixed(2, enc);
    e.LenPrefixed(2, payload);
    assert [] + [0] == [0];
  }

  /** Append one optional extension to a builder that holds `before`. */
  method Append(exts: Builder, ghost before: seq<Block>, present: bool, etype: Uint16, data: Builder)
    returns (ghost after: seq<Block>)
    requires exts != data && exts.b == BlocksBytes(before)
    modifies exts
    ensures after == before + When(present, Block(etype, data.b)) && exts.b == BlocksBytes(after)
  {
    hide BlocksBytes, When;
    exts.Extension(present, etype, data);
    after := before + When(present, Block(etype, data.b));
    BlocksAppend(before, When(present, Block(etype, data.b)));
  }

  method FirstExtensions(exts: Builder, s: HelloSpec) returns (ghost after: seq<Block>)
    requires exts.b == []
    modifies exts
    ensures exts.b == BlocksBytes(after)
    ensures after == When(s.grease, Block(GREASE_EXTENSION, [])) + When(s.sni != [], SniBlock(s))
                     + When(s.groups != [], GroupsBlock(s)) + When(s.pointFormats != [], FormatsBlock(s))
  {
    hide Vector, When, BlocksBytes, ListBytes;
    assert BlocksBytes([]) == [] by { NoBlocks(); }
    var empty := new Builder();
    after := Append(exts, [], s.grease, GREASE_EXTENSION, empty);
    var sni := SniData(s);
    after := Append(exts, after, s.sni != [], EXT_SERVER_NAME, sni);
    var groups := ListData(2, s.groups);
    after := Append(exts, after, s.groups != [], EXT_SUPPORTED_GROUPS, groups);
    var pf := new Builder();
    pf.Raw(s.pointFormats);
    assert [] + s.pointFormats == s.pointFormats;
    var formats := Wrapped(1, pf);
    after := Append(exts, after, s.pointFormats != [], EXT_EC_POINT_FORMATS, formats);
    assert [] + When(s.grease, Block(GREASE_EXTENSION, [])) == When(s.grease, Block(GREASE_EXTENSION, []));
  }

  lemma NoBlocks()
    ensures BlocksBytes([]) == []
  {
  }

  method LastExtensions(exts: Builder, s: HelloSpec, ghost before: seq<Block>) returns (ghost after: seq<Block>)
    requires exts.b == BlocksBytes(before)
    modifies exts
    ensures exts.b == BlocksBytes(after)
    ensures after == before + When(s.sigAlgs != [], SigAlgsBlock(s)) + When(s.alpn != [], AlpnBlock(s))
                     + When(s.supportedVersions != [], VersionsBlock(s)) + When(s.ech, Block(EXT_ECH, EchBytes()))
  {
    hide Vector, When, BlocksBytes, ListBytes, StringsBytes, EchBytes;
    var algs := ListData(2, s.sigAlgs);
    after := Append(exts, before, s.sigAlgs != [], EXT_SIGNATURE_ALGORITHMS, algs);
    var protocols := new Builder();
    protocols.Strings(s.alpn);
    assert [] + StringsBytes(s.alpn) == StringsBytes(s.alpn);
    var alpn := Wrapped(2, protocols);
    after := Append(exts, after, s.alpn != [], EXT_ALPN, alpn);
    var versions := ListData(1, s.supportedVersions);
    after := Append(exts, after, s.supportedVersions != [], EXT_SUPPORTED_VERSIONS, versions);
    var ech := EchData();
    after := Append(exts, after, s.ech, EXT_ECH, ech);
  }

  method Extensions(s: HelloSpec) returns (exts: Builder)
    ensures fresh(exts) && exts.b == BlocksBytes(ProfileBlocks(s, PadBlocks(s)))
  {
    hide When, BlocksBytes, SniBlock, GroupsBlock, FormatsBlock, SigAlgsBlock, AlpnBlock, VersionsBlock, EchBytes;
    exts := new Builder();
    ghost var blocks := FirstExtensions(exts, s);
    blocks := LastExtensions(exts, s, blocks);
    NestedBlocks(s, blocks, []);
    assert blocks + [] == blocks;
    var size := |exts.b|;
    if s.padTo > 0 && size < s.padTo {
      var pad := s.padTo - size - 4;
      if pad > 0 {
        var e := new Builder();
        e.Raw(Zeros(pad));
        assert [] + Zeros(pad) == Zeros(pad);
        ghost var after := Append(exts, blocks, true, EXT_PADDING, e);
        WhenPresent(Block(EXT_PADDING, e.b));
      }
    }
    NestedBlocks(s, blocks, PadBlocks(s));
    assert blocks + [] == blocks;
  }

  lemma WhenPresent(b: Block)
    ensures When(true, b) == [b]
  {
  }

  /** The blocks in the order they were appended are the profile's. */
  lemma NestedBlocks(s: HelloSpec, blocks: seq<Block>, tail: seq<Block>)
    requires blocks == When(s.grease, Block(GREASE_EXTENSION, [])) + When(s.sni != [], SniBlock(s))
                       + When(s.groups != [], GroupsBlock(s)) + When(s.pointFormats != [], FormatsBlock(s))
                       + When(s.sigAlgs != [], SigAlgsBlock(s)) + When(s.alpn != [], AlpnBlock(s))
                       + When(s.supportedVersions != [], VersionsBlock(s)) + When(s.ech, Block(EXT_ECH, EchBytes()))
    ensures ProfileBlocks(s, tail) == blocks + tail
  {
    hide When, SniBlock, GroupsBlock, FormatsBlock, SigAlgsBlock, AlpnBlock, VersionsBlock, EchBytes;
    Nest(When(s.grease, Block(GREASE_EXTENSION, [])), When(s.sni != [], SniBlock(s)), When(s.groups != [], GroupsBlock(s)),
         When(s.pointFormats != [], FormatsBlock(s)), When(s.sigAlgs != [], SigAlgsBlock(s)),
         When(s.alpn != [], AlpnBlock(s)), When(s.supportedVersions != [], VersionsBlock(s)),
         When(s.ech, Block(EXT_ECH, EchBytes())), tail);
  }

  lemma Nest<T>(a: seq<T>, b: seq<T>, c: seq<T>, d: seq<T>, e: seq<T>, f: seq<T>, g: seq<T>, h: seq<T>, t: seq<T>)
    ensures a + b + c + d + e + f + g + h + t == a + (b + (c + (d + (e + (f + (g + (h + t)))))))
  {
    Assoc(a + b + c + d + e + f + g, h, t);
    Assoc(a + b + c + d + e + f, g, h + t);
    Assoc(a + b + c + d + e, f, g + (h + t));
    Assoc(a + b + c + d, e, f + (g + (h + t)));
    Assoc(a + b + c, d, e + (f + (g + (h + t))));
    Assoc(a + b, c, d + (e + (f + (g + (h + t)))));
    Assoc(a, b, c + (d + (e + (f + (g + (h + t))))));
  }

  /** The handshake message of a profile, outside any record. */
  method PrintHandshake(s: HelloSpec) returns (out: Octets)
    ensures out == BuildHandshake(s)
  {
    hide Vector, BlocksBytes, ListBytes, ProfileBlocks, PadBlocks, U16Bytes;
    var ciphers := new Builder();
    if s.grease {
      ciphers.U16(GREASE_CIPHER);
    }
    ciphers.List(s.ciphers);
    CipherBytes(s);
    var exts := Extensions(s);
    var body := new Builder();
    body.U16(s.legacyVersion);
    body.Raw(Zeros(32)); // random
    body.U8(0); // empty legacy_session_id
    body.LenPrefixed(2, ciphers);
    body.U8(1);
    body.U8(0); // compression: null
    body.LenPrefixed(2, exts);
    assert body.b == BodyBytes(ToWire(s)) by { BodyShape(s, ciphers.b, exts.b); }
    var hs := new Builder();
    hs.U8(HANDSHAKE_CLIENT_HELLO);
    hs.LenPrefixed(3, body);
    out := hs.b;
    assert [] + [HANDSHAKE_CLIENT_HELLO] == [HANDSHAKE_CLIENT_HELLO];
  }

  lemma CipherBytes(s: HelloSpec)
    ensures ([] + (if s.grease then U16Bytes(GREASE_CIPHER) else [])) + ListBytes(s.ciphers)
            == ListBytes((if s.grease then [GREASE_CIPHER] else []) + s.ciphers)
  {
    if s.grease {
      assert ([GREASE_CIPHER] + s.ciphers)[1..] == s.ciphers;
    } else {
      assert [] + s.ciphers == s.ciphers;
    }
  }

  lemma BodyShape(s: HelloSpec, ciphers: Octets, exts: Octets)
    requires ciphers == ListBytes(ToWire(s).ciphers) && exts == BlocksBytes(ToWire(s).blocks)
    ensures BodyBytes(ToWire(s))
            == [] + U16Bytes(s.legacyVersion) + Zeros(32) + [0] + Vector(2, ciphers) + [1] + [0] + Vector(2, exts)
  {
    EmptyVectors();
    hide Vector, BlocksBytes, ListBytes, ProfileBlocks, PadBlocks, U16Bytes;
    var v, r, c, x := U16Bytes(s.legacyVersion), Zeros(32), Vector(2, ciphers), Vector(2, exts);
    assert PrefixBytes(ToWire(s)) == v + (r + ([0] + (c + ([1] + [0]))));
    assert [] + v == v;
    assert v + r + [0] + c + [1] + [0] == v + (r + ([0] + (c + ([1] + [0])))) by {
      Assoc(v + r + [0] + c, [1], [0]);
      Assoc(v + r + [0], c, [1] + [0]);
      Assoc(v + r, [0], c + ([1] + [0]));
      Assoc(v, r, [0] + (c + ([1] + [0])));
    }
  }

  lemma EmptyVectors()
    ensures Vector(1, []) == [0] && Vector(1, [0]) == [1] + [0]
  {
  }
}
