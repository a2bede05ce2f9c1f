/** Joining byte strings with a separator, splitting them again, and decimal and hex digits. */
module Joins {
  import opened Bytes
  import opened Collections

  function Join(parts: seq<Octets>, sep: Byte): Octets {
    if parts == [] then []
    else if |parts| == 1 then parts[0]
    else parts[0] + ([sep] + Join(parts[1..], sep))
  }

  /** The stretches between separators; one empty stretch when there is nothing. */
  function Split(s: Octets, sep: Byte): (parts: seq<Octets>)
    ensures |parts| > 0
  {
    if s == [] then [[]]
    else
      var rest := Split(s[1..], sep);
      if s[0] == sep then [[]] + rest else [[s[0]] + rest[0]] + rest[1..]
  }

  lemma {:induction false} SplitFront(a: Octets, back: Octets, sep: Byte)
    requires sep !in a
    ensures Split(a + ([sep] + back), sep) == [a] + Split(back, sep)
  {
    if a == [] {
      assert [] + ([sep] + back) == [sep] + back;
      assert ([sep] + back)[1..] == back;
    } else {
      var s := a + ([sep] + back);
      assert s[1..] == a[1..] + ([sep] + back);
      SplitFront(a[1..], back, sep);
      assert a == [a[0]] + a[1..];
    }
  }

  lemma {:induction false} SplitOne(a: Octets, sep: Byte)
    requires sep !in a
    ensures Split(a, sep) == [a]
  {
    if a != [] {
      SplitOne(a[1..], sep);
      assert a == [a[0]] + a[1..];
    }
  }

  /** Splitting undoes joining when no part holds the separator. */
  lemma {:induction false} SplitJoin(parts: seq<Octets>, sep: Byte)
    requires parts != [] && forall p | p in parts :: sep !in p
    ensures Split(Join(parts, sep), sep) == parts
  {
    if |parts| == 1 {
      SplitOne(parts[0], sep);
    } else {
      SplitJoin(parts[1..], sep);
      SplitFront(parts[0], Join(parts[1..], sep), sep);
      assert parts == [parts[0]] + parts[1..];
    }
  }

  lemma SplitStep(s: Octets, sep: Byte)
    requires s != []
    ensures var rest := Split(s[1..], sep); Split(s, sep) == if s[0] == sep then [[]] + rest else [[s[0]] + rest[0]] + rest[1..]
  {
  }

  lemma JoinFront(p: Octets, rest: seq<Octets>, sep: Byte)
    requires rest != []
    ensures Join([p] + rest, sep) == p + ([sep] + Join(rest, sep))
  {
    assert ([p] + rest)[1..] == rest;
  }

  lemma JoinBreak(rest: seq<Octets>, sep: Byte)
    requires rest != []
    ensures Join([[]] + rest, sep) == [sep] + Join(rest, sep)
  {
    JoinFront([], rest, sep);
    hide Join;
    assert [] + ([sep] + Join(rest, sep)) == [sep] + Join(rest, sep);
  }

  /** A byte before the first part is a byte before the join. */
  lemma JoinGrown(b: Byte, rest: seq<Octets>, sep: Byte)
    requires rest != []
    ensures Join([[b] + rest[0]] + rest[1..], sep) == [b] + Join(rest, sep)
  {
    var grown := [[b] + rest[0]] + rest[1..];
    assert grown[1..] == rest[1..];
    if |rest| > 1 {
      Assoc([b], rest[0], [sep] + Join(rest[1..], sep));
    }
  }

  /** Joining undoes splitting, always. */
  lemma {:induction false} JoinSplit(s: Octets, sep: Byte)
    ensures Join(Split(s, sep), sep) == s
  {
    if s == [] {
    } else {
      hide Join, Split;
      var rest := Split(s[1..], sep);
      SplitStep(s, sep);
      JoinSplit(s[1..], sep);
      HeadTail(s);
      if s[0] == sep {
        JoinBreak(rest, sep);
      } else {
        JoinGrown(s[0], rest, sep);
      }
    }
  }

  /** Split parts never hold the separator. */
  lemma {:induction false} SplitFree(s: Octets, sep: Byte)
    ensures forall p | p in Split(s, sep) :: sep !in p
  {
    if s != [] {
      SplitFree(s[1..], sep);
      var rest := Split(s[1..], sep);
      assert sep !in rest[0];
    }
  }

  lemma JoinEmpty(ps: seq<Octets>, sep: Byte)
    requires forall p | p in ps :: p != []
    ensures Join(ps, sep) == [] ==> ps == []
  {
    if ps != [] {
      assert ps[0] in ps;
    }
  }

  /** Lists of non-empty parts without the separator are told apart by their joins. */
  lemma JoinInjective(ps: seq<Octets>, qs: seq<Octets>, sep: Byte)
    requires (forall p | p in ps :: sep !in p && p != []) && (forall q | q in qs :: sep !in q && q != [])
    requires Join(ps, sep) == Join(qs, sep)
    ensures ps == qs
  {
    JoinEmpty(ps, sep);
    JoinEmpty(qs, sep);
    if ps != [] && qs != [] {
      SplitJoin(ps, sep);
      SplitJoin(qs, sep);
    }
  }

  lemma {:induction false} JoinHolds(parts: seq<Octets>, sep: Byte, b: Byte)
    requires b != sep && forall p | p in parts :: b !in p
    ensures b !in Join(parts, sep)
  {
    if |parts| > 1 {
      JoinHolds(parts[1..], sep, b);
    }
  }

  lemma JoinOne(p: Octets, sep: Byte)
    ensures Join([p], sep) == p
  {
  }

  lemma JoinTail(parts: seq<Octets>, sep: Byte)
    requires parts != []
    ensures Join(parts, sep) == if parts[1..] == [] then parts[0] else parts[0] + ([sep] + Join(parts[1..], sep))
  {
  }

  /** Appending a part to a non-empty join. */
  lemma {:induction false} JoinAppend(parts: seq<Octets>, p: Octets, sep: Byte)
    ensures Join(parts + [p], sep) == if parts == [] then p else Join(parts, sep) + ([sep] + p)
  {
    hide Join;
    if parts == [] {
      assert parts + [p] == [p];
      JoinOne(p, sep);
    } else {
      var rest := parts[1..];
      JoinAppend(rest, p, sep);
      JoinTail(parts, sep);
      AppendTail(parts, p);
      JoinTail(parts + [p], sep);
      if rest != [] {
        Assoc([sep], Join(rest, sep), [sep] + p);
        Assoc(parts[0], [sep] + Join(rest, sep), [sep] + p);
      }
    }
  }

  // --- decimal ---

  const DIGIT_ZERO: Byte := 48

  function Decimal(n: nat): (s: Octets)
    ensures |s| > 0
    ensures forall i | 0 <= i < |s| :: 48 <= s[i] <= 57
  {
    if n < 10 then [DIGIT_ZERO + n] else Decimal(n / 10) + [DIGIT_ZERO + n % 10]
  }

  function DecimalValue(s: Octets): int {
    if s == [] then 0 else 10 * DecimalValue(s[..|s| - 1]) + s[|s| - 1] - 48
  }

  lemma {:induction false} DecimalInverse(n: nat)
    ensures DecimalValue(Decimal(n)) == n
  {
    var s := Decimal(n);
    if n < 10 {
      assert s[..|s| - 1] == [];
    } else {
      assert s[..|s| - 1] == Decimal(n / 10);
      DecimalInverse(n / 10);
    }
  }

  // --- hex ---

  function HexDigit(d: nat): (b: Byte)
    requires d < 16
    ensures 48 <= b <= 57 || 97 <= b <= 102
  {
    if d < 10 then 48 + d else 87 + d
  }

  function HexDigitValue(b: Byte): int { if b < 97 then b as int - 48 else b as int - 87 }

  /** Four lowercase hex digits. */
  function Hex4(v: Uint16): (s: Octets)
    ensures |s| == 4
    ensures forall i | 0 <= i < |s| :: 48 <= s[i] <= 57 || 97 <= s[i] <= 102
  {
    [HexDigit(v / 0x1000), HexDigit(v / 0x100 % 16), HexDigit(v / 16 % 16), HexDigit(v % 16)]
  }

  lemma Hex4Injective(v: Uint16, w: Uint16)
    requires Hex4(v) == Hex4(w)
    ensures v == w
  {
    assert Hex4(v)[0] == Hex4(w)[0] && Hex4(v)[1] == Hex4(w)[1] && Hex4(v)[2] == Hex4(w)[2] && Hex4(v)[3] == Hex4(w)[3];
    hide HexDigit;
    DigitsSame(v / 0x1000, w / 0x1000);
    DigitsSame(v / 0x100 % 16, w / 0x100 % 16);
    DigitsSame(v / 16 % 16, w / 16 % 16);
    DigitsSame(v % 16, w % 16);
    Nibbles(v);
    Nibbles(w);
  }

  lemma DigitsSame(d: nat, e: nat)
    requires d < 16 && e < 16 && HexDigit(d) == HexDigit(e)
    ensures d == e
  {
    assert HexDigitValue(HexDigit(d)) == d && HexDigitValue(HexDigit(e)) == e;
  }

  lemma Nibbles(v: Uint16)
    ensures v == 0x1000 * (v / 0x1000) + 0x100 * (v / 0x100 % 16) + 16 * (v / 16 % 16) + v % 16
  {
    Nibble(v, 16);
    Nibble(v, 0x100);
  }

  /** Dividing in two steps. */
  lemma Nibble(v: nat, k: nat)
    requires k == 16 || k == 0x100
    ensures v / k == 16 * (v / (16 * k)) + v / k % 16
  {
    if k == 16 {
      assert v / 0x100 == v / 16 / 16;
    } else {
      assert v / 0x1000 == v / 0x100 / 16;
    }
  }
}
