/** QUIC variable-length integers (section 16 of RFC 9000). */
module Varints {
  import opened Bytes
  import opened Cursors

  const VARINT_LIMIT := 0x4000_0000_0000_0000

  /** The values a QUIC varint can carry. */
  type VarintValue = x: int | 0 <= x < VARINT_LIMIT

  /** Bytes after the first one, folded onto the value read so far; zero once a read fails. */
  function ReadTail(s: Src, v: nat, n: nat): (r: (nat, Src))
    ensures |r.1.rest| <= |s.rest|
    decreases n
  {
    if n == 0 then (v, s)
    else
      var (b, s1) := s.ReadU8();
      if s1.bad then (0, s1) else ReadTail(s1, v * 256 + b, n - 1)
  }

  function LengthOfTag(tag: nat): nat {
    if tag == 0 then 1 else if tag == 1 then 2 else if tag == 2 then 4 else 8
  }

  function ReadVarint(s: Src): (r: (nat, Src))
    ensures |r.1.rest| <= |s.rest|
    ensures s.rest != [] ==> |r.1.rest| < |s.rest|
  {
    var (first, s1) := s.ReadU8();
    if s1.bad then (0, s1) else ReadTail(s1, first % 64, LengthOfTag(first / 64) - 1)
  }

  /** The two top bits select the length, the rest carry the value; other bits of it are lost. */
  function Tagged(v: nat, tag: nat): (s: Octets)
    requires tag < 4
    ensures |s| == LengthOfTag(tag)
  {
    var be := BigEndian(v, LengthOfTag(tag));
    be[0 := be[0] % 64 + tag * 64]
  }

  /** The shortest of the four forms that fits. */
  function Varint(v: Uint64): (s: Octets)
    ensures |s| > 0
  {
    if v < 0x40 then Tagged(v, 0)
    else if v < 0x4000 then Tagged(v, 1)
    else if v < 0x4000_0000 then Tagged(v, 2)
    else Tagged(v, 3)
  }

  // --- decoding undoes encoding ---

  /** `v` without its `n` low bytes. */
  function High(v: nat, n: nat): nat {
    if n == 0 then v else High(v / 256, n - 1)
  }

  lemma {:induction false} HighStep(v: nat, n: nat)
    requires n > 0
    ensures High(v, n) == High(v, n - 1) / 256
  {
    if n > 1 {
      HighStep(v / 256, n - 1);
    }
  }

  lemma {:induction false} BigEndianStep(v: nat, n: nat)
    requires n > 0
    ensures BigEndian(v, n) == [High(v, n - 1) % 256] + BigEndian(v, n - 1)
  {
    if n > 1 {
      BigEndianStep(v / 256, n - 1);
      assert BigEndian(v, n) == [High(v / 256, n - 2) % 256] + (BigEndian(v / 256, n - 2) + [v % 256]);
    }
  }

  lemma ReadTailStep(b: Byte, tail: Octets, v: nat, n: nat)
    requires n > 0
    ensures ReadTail(Src([b] + tail, false), v, n) == ReadTail(Src(tail, false), v * 256 + b, n - 1)
  {
    ReadU8Front(b, tail);
  }

  /** Folding the `n` low bytes of `v` onto its higher part rebuilds `v`. */
  lemma {:induction false} ReadTailBigEndian(v: nat, n: nat, back: Octets)
    ensures ReadTail(Src(BigEndian(v, n) + back, false), High(v, n), n) == (v, Src(back, false))
  {
    if n == 0 {
      assert BigEndian(v, 0) + back == back;
    } else {
      BigEndianStep(v, n);
      HighStep(v, n);
      var b: Byte := High(v, n - 1) % 256;
      var tail := BigEndian(v, n - 1) + back;
      assert BigEndian(v, n) + back == [b] + tail;
      ReadTailStep(b, tail, High(v, n), n);
      ReadTailBigEndian(v, n - 1, back);
    }
  }

  lemma TaggedSplit(v: nat, tag: nat, top: nat)
    requires tag < 4 && top < 64 && top == High(v, LengthOfTag(tag) - 1)
    ensures Tagged(v, tag) == [top + tag * 64] + BigEndian(v, LengthOfTag(tag) - 1)
  {
    var n := LengthOfTag(tag);
    BigEndianStep(v, n);
    var be := BigEndian(v, n);
    assert be[0] == top;
    assert be[1..] == BigEndian(v, n - 1);
  }

  lemma TagOf(first: nat, top: nat, tag: nat)
    requires top < 64 && first == top + tag * 64
    ensures first / 64 == tag && first % 64 == top
  {
  }

  lemma ReadTagged(top: nat, tag: nat, tail: Octets)
    requires tag < 4 && top < 64
    ensures ReadVarint(Src([top + tag * 64] + tail, false)) == ReadTail(Src(tail, false), top, LengthOfTag(tag) - 1)
  {
    ReadU8Front(top + tag * 64, tail);
    TagOf(top + tag * 64, top, tag);
  }

  lemma TaggedReads(v: nat, tag: nat, back: Octets)
    requires tag < 4 && High(v, LengthOfTag(tag) - 1) < 64
    ensures ReadVarint(Src(Tagged(v, tag) + back, false)) == (v, Src(back, false))
  {
    var n := LengthOfTag(tag) - 1;
    var top := High(v, n);
    var tail := BigEndian(v, n);
    TaggedSplit(v, tag, top);
    assert Tagged(v, tag) + back == [top + tag * 64] + (tail + back);
    ReadTagged(top, tag, tail + back);
    ReadTailBigEndian(v, n, back);
  }

  /** A value fits six bits above its `n` low bytes exactly when it is below 64 * 256^n. */
  lemma HighFits(v: nat)
    ensures High(v, 0) < 64 <==> v < 0x40
    ensures High(v, 1) < 64 <==> v < 0x4000
    ensures High(v, 3) < 64 <==> v < 0x4000_0000
    ensures High(v, 7) < 64 <==> v < VARINT_LIMIT
  {
    HighStep(v, 1);
    HighStep(v, 2);
    HighStep(v, 3);
    HighStep(v, 4);
    HighStep(v, 5);
    HighStep(v, 6);
    HighStep(v, 7);
    hide High;
    assert High(v, 0) == v by { HighZero(v); }
    assert High(v, 6) < 0x4000 <==> High(v, 7) < 0x40;
    assert High(v, 5) < 0x40_0000 <==> High(v, 6) < 0x4000;
    assert High(v, 4) < 0x4000_0000 <==> High(v, 5) < 0x40_0000;
    assert High(v, 3) < 0x40_0000_0000 <==> High(v, 4) < 0x4000_0000;
    assert High(v, 2) < 0x4000_0000_0000 <==> High(v, 3) < 0x40_0000_0000;
    assert High(v, 1) < 0x40_0000_0000_0000 <==> High(v, 2) < 0x4000_0000_0000;
    assert High(v, 2) < 0x4000 <==> High(v, 3) < 0x40;
    assert High(v, 1) < 0x40_0000 <==> High(v, 2) < 0x4000;
  }

  lemma HighZero(v: nat)
    ensures High(v, 0) == v
  {
  }

  /** The bytes folded in never reach the part read before them. */
  lemma {:induction false} ReadTailKeepsHigh(s: Src, v: nat, n: nat)
    ensures var (r, s1) := ReadTail(s, v, n); if s1.bad && n > 0 then r == 0 || s.bad else High(r, n) == v && |s.rest| == |s1.rest| + n
    decreases n
  {
    if n > 0 {
      var (b, s1) := s.ReadU8();
      if !s1.bad {
        var r := ReadTail(s1, v * 256 + b, n - 1).0;
        ReadTailKeepsHigh(s1, v * 256 + b, n - 1);
        HighStep(r, n);
      }
    }
  }

  lemma VarintValueBounded(s: Src)
    requires !s.bad
    ensures ReadVarint(s).0 < VARINT_LIMIT
  {
    var (first, s1) := s.ReadU8();
    if !s1.bad {
      var n := LengthOfTag(first / 64) - 1;
      var r := ReadTail(s1, first % 64, n).0;
      ReadTailKeepsHigh(s1, first % 64, n);
      HighFits(r);
    }
  }

  /**
   Decoding undoes encoding, with whatever follows left untouched, for exactly the values
   below 2^62: a larger one loses its two top bits to the length tag.
   */
  lemma VarintRoundTrip(v: Uint64, back: Octets)
    ensures ReadVarint(Src(Varint(v) + back, false)) == (v, Src(back, false)) <==> v < VARINT_LIMIT
  {
    HighFits(v);
    hide High, Tagged, ReadVarint;
    if v < 0x40 {
      TaggedReads(v, 0, back);
    } else if v < 0x4000 {
      TaggedReads(v, 1, back);
    } else if v < 0x4000_0000 {
      TaggedReads(v, 2, back);
    } else if v < VARINT_LIMIT {
      TaggedReads(v, 3, back);
    } else {
      VarintValueBounded(Src(Varint(v) + back, false));
    }
  }

  lemma ReadVarintFront(v: VarintValue, back: Octets)
    ensures ReadVarint(Src(Varint(v) + back, false)) == (v, Src(back, false))
  {
    VarintRoundTrip(v, back);
  }

  /** No encoding of `v` that the decoder accepts is shorter than the one written. */
  lemma VarintShortest(v: Uint64, s: Src)
    requires !s.bad && !ReadVarint(s).1.bad && ReadVarint(s).0 == v
    ensures |s.rest| - |ReadVarint(s).1.rest| >= |Varint(v)|
  {
    var (first, s1) := s.ReadU8();
    assert !s1.bad;
    var n := LengthOfTag(first / 64) - 1;
    ReadTailKeepsHigh(s1, first % 64, n);
    HighFits(v);
  }

  /** The bytes folded in are so many big-endian digits. */
  lemma {:induction false} ReadTailExact(rest: Octets, v: nat, n: nat)
    ensures ReadTail(Src(rest, false), v, n) ==
            if |rest| < n then (0, Src([], true)) else (v * Pow256(n) + FromBigEndian(rest[..n]), Src(rest[n..], false))
    decreases n
  {
    if n == 0 {
      assert rest[..0] == [] && rest[0..] == rest;
    } else if rest != [] {
      var b, tail := rest[0], rest[1..];
      ReadTailExact(tail, v * 256 + b, n - 1);
      if |rest| >= n {
        assert rest[..n] == [b] + tail[..n - 1] && tail[n - 1..] == rest[n..];
        FirstDigit(b, tail[..n - 1]);
        Weights(v, b, Pow256(n - 1));
      }
    }
  }

  lemma Weights(v: nat, b: nat, w: nat)
    ensures (v * 256 + b) * w == v * (256 * w) + b * w
  {
  }

  /**
   What any bytes decode to, shortest form or not: the top two bits say whether 1, 2, 4 or 8 bytes are
   taken, and those without them are the value, most significant first; with fewer bytes left the read fails.
   */
  lemma VarintExact(rest: Octets)
    requires rest != []
    ensures
      var n := if rest[0] < 0x40 then 1 else if rest[0] < 0x80 then 2 else if rest[0] < 0xc0 then 4 else 8;
      ReadVarint(Src(rest, false)) ==
      if |rest| < n then (0, Src([], true)) else (FromBigEndian([rest[0] % 64] + rest[1..n]), Src(rest[n..], false))
  {
    var n := LengthOfTag(rest[0] / 64);
    ReadTailExact(rest[1..], rest[0] % 64, n - 1);
    if |rest| >= n {
      FirstDigit(rest[0] % 64, rest[1..n]);
      assert rest[1..][..n - 1] == rest[1..n] && rest[1..][n - 1..] == rest[n..];
    }
  }

  lemma VarintNothing(bad: bool)
    ensures ReadVarint(Src([], bad)) == (0, Src([], true))
  {
  }

  method ReadVarintFrom(r: Cursor) returns (v: nat)
    requires r.Valid()
    modifies r
    ensures r.Valid() && (v, r.View()) == ReadVarint(old(r.View()))
  {
    var first := r.U8();
    if r.bad {
      return 0;
    }
    var length := LengthOfTag(first / 64);
    v := first % 64;
    var i := 1;
    while i < length
      invariant 1 <= i <= length && r.Valid()
      invariant ReadTail(r.View(), v, length - i) == ReadVarint(old(r.View()))
    {
      var b := r.U8();
      if r.bad {
        return 0;
      }
      v := v * 256 + b;
      i := i + 1;
    }
  }
}
