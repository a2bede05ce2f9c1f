/**
 The bounds-checked reader both parsers are written with. A read past the end marks the
 reader bad, moves it to the end and yields zero, so a parser needs one check at the end.

 `Src` is the abstract state (what is left to read, and whether a read has failed); the
 class `Cursor` is the mutable reader, each method of which is tied to one function of `Src`.
 */
module Cursors {
  import opened Bytes

  datatype Src = Src(rest: Octets, bad: bool) {

    function ReadU8(): (r: (Byte, Src)) {
      if |rest| < 1 then (0, Src([], true)) else (rest[0], Src(rest[1..], bad))
    }

    function ReadU16(): (r: (Uint16, Src)) {
      if |rest| < 2 then (0, Src([], true))
      else (Be16(rest[0], rest[1]), Src(rest[2..], bad))
    }

    function ReadU24(): (r: (nat, Src)) {
      if |rest| < 3 then (0, Src([], true))
      else (Be24(rest[0], rest[1], rest[2]), Src(rest[3..], bad))
    }

    function ReadU32(): (r: (Uint32, Src)) {
      if |rest| < 4 then (0, Src([], true))
      else (Be32(rest[0], rest[1], rest[2], rest[3]), Src(rest[4..], bad))
    }

    function ReadBytes(n: nat): (r: (Octets, Src)) {
      if |rest| < n then ([], Src([], true)) else (rest[..n], Src(rest[n..], bad))
    }

    /** A reader over the next `n` bytes; it is bad, and its parent too, when they are not there. */
    function ReadSub(n: nat): (r: (Src, Src)) {
      if |rest| < n then (Src([], true), Src([], true))
      else (Src(rest[..n], false), Src(rest[n..], bad))
    }
  }

  /** A read past the end fails for good: nothing is read, and nothing is left to read. */
  lemma ShortReads(s: Src, n: nat)
    ensures |s.rest| < 1 ==> s.ReadU8() == (0, Src([], true))
    ensures |s.rest| < 2 ==> s.ReadU16() == (0, Src([], true))
    ensures |s.rest| < 3 ==> s.ReadU24() == (0, Src([], true))
    ensures |s.rest| < 4 ==> s.ReadU32() == (0, Src([], true))
    ensures |s.rest| < n ==> s.ReadBytes(n) == ([], Src([], true)) && s.ReadSub(n) == (Src([], true), Src([], true))
  {
  }

  /** Reading `n` bytes off a front that is exactly `n` long. */
  lemma ReadBytesFront(front: Octets, back: Octets)
    ensures Src(front + back, false).ReadBytes(|front|) == (front, Src(back, false))
    ensures Src(front + back, false).ReadSub(|front|) == (Src(front, false), Src(back, false))
  {
    assert (front + back)[..|front|] == front;
    assert (front + back)[|front|..] == back;
  }

  function U16Bytes(v: Uint16): (s: Octets)
    ensures |s| == 2
  {
    [v / 0x100, v % 0x100]
  }

  function U24Bytes(v: nat): (s: Octets)
    requires v < 0x100_0000
    ensures |s| == 3
  {
    [v / 0x1_0000, v / 0x100 % 0x100, v % 0x100]
  }

  lemma ReadU8Front(v: Byte, back: Octets)
    ensures Src([v] + back, false).ReadU8() == (v, Src(back, false))
  {
    assert ([v] + back)[1..] == back;
  }

  lemma ReadU16Front(v: Uint16, back: Octets)
    ensures Src(U16Bytes(v) + back, false).ReadU16() == (v, Src(back, false))
  {
    assert (U16Bytes(v) + back)[2..] == back;
  }

  lemma U24Value(v: nat)
    requires v < 0x100_0000
    ensures var s := U24Bytes(v); Be24(s[0], s[1], s[2]) == v
  {
    assert v / 0x100 == 0x100 * (v / 0x1_0000) + v / 0x100 % 0x100;
  }

  lemma ReadU24Front(v: nat, back: Octets)
    requires v < 0x100_0000
    ensures Src(U24Bytes(v) + back, false).ReadU24() == (v, Src(back, false))
  {
    U24Value(v);
    var s := U24Bytes(v);
    hide Be24, U24Bytes;
    assert (s + back)[3..] == back;
    assert (s + back)[0] == s[0] && (s + back)[1] == s[1] && (s + back)[2] == s[2];
  }

  class Cursor {
    const b: Octets
    var pos: nat
    var bad: bool

    ghost predicate Valid()
      reads this
    {
      pos <= |b| && (bad ==> pos == |b|)
    }

    /** What the reader still offers. */
    function View(): Src
      requires Valid()
      reads this
    {
      Src(b[pos..], bad)
    }

    constructor (b: Octets)
      ensures Valid() && View() == Src(b, false) && this.b == b && pos == 0
    {
      this.b := b;
      pos := 0;
      bad := false;
    }

    constructor Failed()
      ensures Valid() && View() == Src([], true)
    {
      b := [];
      pos := 0;
      bad := true;
    }

    function Remaining(): (n: nat)
      requires Valid()
      reads this
      ensures n == |View().rest|
    {
      |b| - pos
    }

    method Fail()
      modifies this
      ensures Valid() && View() == Src([], true)
    {
      bad := true;
      pos := |b|;
    }

    method U8() returns (v: Byte)
      requires Valid()
      modifies this
      ensures Valid() && (v, View()) == old(View()).ReadU8()
      ensures bad || pos == old(pos) + 1
    {
      if Remaining() < 1 {
        Fail();
        return 0;
      }
      v := b[pos];
      pos := pos + 1;
    }

    method U16() returns (v: Uint16)
      requires Valid()
      modifies this
      ensures Valid() && (v, View()) == old(View()).ReadU16()
    {
      if Remaining() < 2 {
        Fail();
        return 0;
      }
      v := Be16(b[pos], b[pos + 1]);
      pos := pos + 2;
    }

    method U24() returns (v: nat)
      requires Valid()
      modifies this
      ensures Valid() && (v, View()) == old(View()).ReadU24()
    {
      if Remaining() < 3 {
        Fail();
        return 0;
      }
      v := Be24(b[pos], b[pos + 1], b[pos + 2]);
      pos := pos + 3;
    }

    method U32() returns (v: Uint32)
      requires Valid()
      modifies this
      ensures Valid() && (v, View()) == old(View()).ReadU32()
    {
      if Remaining() < 4 {
        Fail();
        return 0;
      }
      v := Be32(b[pos], b[pos + 1], b[pos + 2], b[pos + 3]);
      pos := pos + 4;
    }

    method Bytes(n: nat) returns (v: Octets)
      requires Valid()
      modifies this
      ensures Valid() && (v, View()) == old(View()).ReadBytes(n)
    {
      if Remaining() < n {
        Fail();
        return [];
      }
      v := b[pos..pos + n];
      pos := pos + n;
      assert v == old(b[pos..])[..n] && b[pos..] == old(b[pos..])[n..];
    }

    method Skip(n: nat)
      requires Valid()
      modifies this
      ensures Valid() && View() == old(View()).ReadBytes(n).1
    {
      var _ := Bytes(n);
    }

    method Sub(n: nat) returns (c: Cursor)
      requires Valid()
      modifies this
      ensures Valid() && c.Valid() && fresh(c)
      ensures (c.View(), View()) == old(View()).ReadSub(n)
    {
      if Remaining() < n {
        Fail();
        c := new Cursor.Failed();
        return;
      }
      var v := Bytes(n);
      c := new Cursor(v);
    }
  }
}
