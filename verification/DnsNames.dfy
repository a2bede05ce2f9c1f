/** DNS names on the wire, the first question of a query, and splitting a name at its registered domain. */
module DnsNames {
  import opened Bytes
  import opened Collections
  import opened Joins

  const DOT: Byte := 46
  const HEADER_LEN := 12
  const MAX_NAME := 255
  const MAX_LABEL := 63

  // --- writing ---

  function Clipped(l: Octets): Octets {
    if |l| > MAX_LABEL then l[..MAX_LABEL] else l
  }

  /** A label after its length. */
  function Labelled(l: Octets): Octets { [|Clipped(l)| as Byte] + Clipped(l) }

  /** Each label after its length. */
  function Labels(ls: seq<Octets>): Octets {
    if ls == [] then [] else Labelled(ls[0]) + Labels(ls[1..])
  }

  const QUERY_HEADER: Octets := [0x12, 0x34, 0x01, 0x00, 0x00, 0x01, 0, 0, 0, 0, 0, 0]

  function DnsQuery(name: Octets, qtype: Uint16): Octets {
    QUERY_HEADER + (Labels(Split(name, DOT)) + ([0] + (BigEndian(qtype, 2) + BigEndian(1, 2))))
  }

  lemma {:induction false} LabelsAppend(ls: seq<Octets>, l: Octets)
    ensures Labels(ls + [l]) == Labels(ls) + Labelled(l)
  {
    hide Labelled;
    if ls == [] {
      assert [l][1..] == [] && [] + [l] == [l];
    } else {
      LabelsAppend(ls[1..], l);
      assert (ls + [l])[1..] == ls[1..] + [l];
      Assoc(Labelled(ls[0]), Labels(ls[1..]), Labelled(l));
    }
  }

  /** One label appended to what is written. */
  method AppendLabel(out: Octets, l: Octets) returns (more: Octets)
    ensures more == out + Labelled(l)
  {
    var part := l;
    if |part| > MAX_LABEL {
      part := part[..MAX_LABEL];
    }
    more := out + [|part| as Byte];
    more := more + part;
  }

  method AppendName(b: Octets, name: Octets) returns (out: Octets)
    ensures out == b + (Labels(Split(name, DOT)) + [0])
  {
    hide Labels, Labelled, Split;
    var labels := Split(name, DOT);
    out := b;
    LabelsNone();
    for i := 0 to |labels|
      invariant out == b + Labels(labels[..i])
    {
      LabelsAppend(labels[..i], labels[i]);
      assert labels[..i + 1] == labels[..i] + [labels[i]];
      Assoc(b, Labels(labels[..i]), Labelled(labels[i]));
      out := AppendLabel(out, labels[i]);
    }
    assert labels[..|labels|] == labels;
    Assoc(b, Labels(labels), [0]);
    out := out + [0];
  }

  lemma LabelsNone()
    ensures Labels([]) == []
  {
  }

  method BuildQuery(name: Octets, qtype: Uint16) returns (b: Octets)
    ensures b == DnsQuery(name, qtype)
  {
    hide Labels, Split, BigEndian;
    b := AppendName(QUERY_HEADER, name);
    ghost var labels := Labels(Split(name, DOT));
    Assoc(labels, [0], BigEndian(qtype, 2) + BigEndian(1, 2));
    Assoc(QUERY_HEADER, labels + [0], BigEndian(qtype, 2) + BigEndian(1, 2));
    Assoc(b, BigEndian(qtype, 2), BigEndian(1, 2));
    b := b + BigEndian(qtype, 2);
    b := b + BigEndian(1, 2);
  }

  // --- reading ---

  /** The labels from `off` on, and the place just past the name; `total` counts label and length bytes so far. */
  function ReadName(b: Octets, off: nat, total: nat): (r: Option<(seq<Octets>, nat)>)
    ensures r.Some? ==> off < r.value.1 <= |b|
    decreases |b| - off
  {
    if off >= |b| then None
    else
      var n: nat := b[off];
      if n == 0 then Some(([], off + 1))
      else if n > MAX_LABEL then None
      else if off + 1 + n > |b| || total + n + 1 > MAX_NAME then None
      else
        Onto([b[off + 1..off + 1 + n]], ReadName(b, off + 1 + n, total + n + 1))
  }

  /** More labels in front of what is read from here. */
  function Onto(labels: seq<Octets>, r: Option<(seq<Octets>, nat)>): Option<(seq<Octets>, nat)> {
    match r
    case None => None
    case Some(rest) => Some((labels + rest.0, rest.1))
  }

  lemma OntoNothing(r: Option<(seq<Octets>, nat)>)
    ensures Onto([], r) == r
  {
    assert r.Some? ==> [] + r.value.0 == r.value.0;
  }

  lemma OntoMore(labels: seq<Octets>, l: Octets, r: Option<(seq<Octets>, nat)>)
    ensures Onto(labels, Onto([l], r)) == Onto(labels + [l], r)
  {
    if r.Some? {
      assert labels + ([l] + r.value.0) == labels + [l] + r.value.0;
    }
  }

  method ReadLabels(b: Octets, start: nat) returns (r: Option<(seq<Octets>, nat)>)
    ensures r == ReadName(b, start, 0)
  {
    var off, total := start, 0;
    var labels := [];
    OntoNothing(ReadName(b, off, 0));
    while off < |b|
      invariant total >= 0 && off >= 0 && ReadName(b, start, 0) == Onto(labels, ReadName(b, off, total))
      decreases |b| - off
    {
      var n: nat := b[off];
      off := off + 1;
      if n == 0 {
        assert labels + [] == labels;
        return Some((labels, off));
      }
      if n / 64 != 0 {
        return None;
      }
      if off + n > |b| {
        return None;
      }
      total := total + n + 1;
      if total > MAX_NAME {
        return None;
      }
      OntoMore(labels, b[off..off + n], ReadName(b, off + n, total));
      labels := labels + [b[off..off + n]];
      off := off + n;
    }
    return None;
  }

  datatype Question = Question(name: Octets, labels: seq<Octets>, qtype: Uint16)

  /** The first question of a query, or nothing for a response or anything malformed. */
  function ParseQuestion(b: Octets): Option<Question> {
    if |b| < HEADER_LEN || b[2] >= 0x80 || Be16(b[4], b[5]) < 1 then None
    else
      match ReadName(b, HEADER_LEN, 0)
      case None => None
      case Some(r) =>
        if r.0 == [] || r.1 + 4 > |b| then None
        else Some(Question(Join(r.0, DOT), r.0, Be16(b[r.1], b[r.1 + 1])))
  }

  method DecodeQuestion(b: Octets) returns (q: Option<Question>)
    ensures q == ParseQuestion(b)
  {
    if |b| < HEADER_LEN {
      return None;
    }
    if b[2] / 128 != 0 {
      return None;
    }
    if Be16(b[4], b[5]) < 1 {
      return None;
    }
    var r := ReadLabels(b, HEADER_LEN);
    if r.None? || r.value.0 == [] {
      return None;
    }
    var off := r.value.1;
    if off + 4 > |b| {
      return None;
    }
    return Some(Question(Join(r.value.0, DOT), r.value.0, Be16(b[off], b[off + 1])));
  }

  // --- the round trip ---

  /** Label bytes and length bytes together. */
  function WireLength(ls: seq<Octets>): nat {
    if ls == [] then 0 else |ls[0]| + 1 + WireLength(ls[1..])
  }

  /** The labels a reader sees: each clipped, up to the first empty one. */
  function Seen(ls: seq<Octets>): seq<Octets> {
    if ls == [] || ls[0] == [] then [] else [Clipped(ls[0])] + Seen(ls[1..])
  }

  lemma ReadStep(pre: Octets, l: Octets, back: Octets, total: nat)
    requires 1 <= |l| <= MAX_LABEL
    ensures var b := pre + (([|l| as Byte] + l) + back);
            ReadName(b, |pre|, total) ==
            if total + |l| + 1 > MAX_NAME then None
            else Onto([l], ReadName(b, |pre| + 1 + |l|, total + |l| + 1))
  {
    var front: Octets := [|l| as Byte] + l;
    var b := pre + (front + back);
    assert b[|pre|] == front[0];
    assert b[|pre| + 1..|pre| + 1 + |l|] == l;
  }

  /** What a reader makes of these labels written from `at` on. */
  ghost predicate Reads(r: Option<(seq<Octets>, nat)>, ls: seq<Octets>, at: nat, total: nat) {
    && (r.Some? <==> total + WireLength(Seen(ls)) <= MAX_NAME || Seen(ls) == [])
    && (r.Some? ==> r.value.0 == Seen(ls))
    && (r.Some? && Seen(ls) == ls ==> r.value.1 == at + |Labels(ls)| + 1)
  }

  lemma ReadsMore(r: Option<(seq<Octets>, nat)>, ls: seq<Octets>, at: nat, total: nat)
    requires ls != [] && ls[0] != []
    requires Reads(r, ls[1..], at + 1 + |Clipped(ls[0])|, total + |Clipped(ls[0])| + 1)
    ensures Reads(if total + |Clipped(ls[0])| + 1 > MAX_NAME then None else Onto([Clipped(ls[0])], r), ls, at, total)
  {
    SeenRest(ls);
    LabelsRest(ls);
    hide Clipped, Labels, WireLength, Seen;
  }

  /** What follows the first label, seen from either side of it. */
  lemma LabelsShift(pre: Octets, ls: seq<Octets>, tail: Octets)
    requires ls != []
    ensures var front, more := Labelled(ls[0]), Labels(ls[1..]) + tail;
            pre + (Labels(ls) + tail) == pre + (front + more) == (pre + front) + more
  {
    LabelsRest(ls);
    hide Labels, Labelled;
    Assoc(Labelled(ls[0]), Labels(ls[1..]), tail);
    Assoc(pre, Labelled(ls[0]), Labels(ls[1..]) + tail);
  }

  /** Reading back any labels sees exactly `Seen`, or nothing when they are too long together. */
  lemma {:induction false} ReadSeen(pre: Octets, ls: seq<Octets>, back: Octets, total: nat)
    ensures Reads(ReadName(pre + (Labels(ls) + ([0] + back)), |pre|, total), ls, |pre|, total)
    decreases |ls|
  {
    hide ReadName, Labels, Seen, WireLength, Reads;
    if ls == [] || ls[0] == [] {
      ReadEnd(pre, ls, back, total);
    } else {
      ReadSeen(pre + Labelled(ls[0]), ls[1..], back, total + |Clipped(ls[0])| + 1);
      ReadFirst(pre, ls, [0] + back, total);
    }
  }

  /** Reading the first label, then what the rest is read as. */
  lemma ReadFirst(pre: Octets, ls: seq<Octets>, tail: Octets, total: nat)
    requires ls != [] && ls[0] != []
    requires var at, sum := pre + Labelled(ls[0]), total + |Clipped(ls[0])| + 1;
             Reads(ReadName(at + (Labels(ls[1..]) + tail), |at|, sum), ls[1..], |at|, sum)
    ensures Reads(ReadName(pre + (Labels(ls) + tail), |pre|, total), ls, |pre|, total)
  {
    hide ReadName, Labels, Seen, WireLength, Reads;
    var l := Clipped(ls[0]);
    LabelsShift(pre, ls, tail);
    ReadStep(pre, l, Labels(ls[1..]) + tail, total);
    ReadsMore(ReadName(pre + (Labels(ls) + tail), |pre| + 1 + |l|, total + |l| + 1), ls, |pre|, total);
  }

  lemma ReadEnd(pre: Octets, ls: seq<Octets>, back: Octets, total: nat)
    requires ls == [] || ls[0] == []
    ensures Reads(ReadName(pre + (Labels(ls) + ([0] + back)), |pre|, total), ls, |pre|, total)
  {
    var tail := Labels(ls) + ([0] + back);
    assert tail[0] == 0;
    assert (pre + tail)[|pre|] == 0;
  }

  lemma LabelsRest(ls: seq<Octets>)
    requires ls != []
    ensures Labels(ls) == Labelled(ls[0]) + Labels(ls[1..])
  {
  }

  lemma SeenRest(ls: seq<Octets>)
    requires ls != [] && ls[0] != []
    ensures Seen(ls) == [Clipped(ls[0])] + Seen(ls[1..]) && 1 <= |Clipped(ls[0])| <= MAX_LABEL
    ensures WireLength(Seen(ls)) == |Clipped(ls[0])| + 1 + WireLength(Seen(ls[1..]))
    ensures Seen(ls[1..]) == [] ==> WireLength(Seen(ls[1..])) == 0
    ensures Seen(ls) == ls ==> Seen(ls[1..]) == ls[1..]
  {
  }

  /** Every label has 1 to 63 bytes, and label and length bytes together are at most 255. */
  predicate Encodable(ls: seq<Octets>) {
    (forall l | l in ls :: 1 <= |l| <= MAX_LABEL) && WireLength(ls) <= MAX_NAME
  }

  lemma {:induction false} SeenWhole(ls: seq<Octets>)
    ensures Seen(ls) == ls <==> forall l | l in ls :: 1 <= |l| <= MAX_LABEL
  {
    if ls != [] {
      SeenWhole(ls[1..]);
      assert ls == [ls[0]] + ls[1..];
      if Seen(ls) == ls && ls[0] != [] {
        SeenRest(ls);
      }
    }
  }

  /** The header of a query: its identifier, recursion desired, one question and nothing else. */
  lemma QueryFields(name: Octets, qtype: Uint16)
    ensures var b := DnsQuery(name, qtype);
            && |b| >= HEADER_LEN && b[2] == 1 && b[4] == 0 && b[5] == 1 && b[..HEADER_LEN] == QUERY_HEADER
            && b[..12] == [0x12, 0x34, 1, 0, 0, 1, 0, 0, 0, 0, 0, 0]
  {
  }

  lemma TypeBytes(qtype: Uint16, back: Octets)
    ensures var s := BigEndian(qtype, 2) + back; |s| >= 2 && Be16(s[0], s[1]) == qtype
  {
    assert BigEndian(qtype, 2) == [qtype / 256 % 256, qtype % 256];
  }

  lemma TypeAt(pre: Octets, qtype: Uint16)
    ensures var b := pre + (BigEndian(qtype, 2) + BigEndian(1, 2));
            |b| == |pre| + 4 && Be16(b[|pre|], b[|pre| + 1]) == qtype
  {
    hide BigEndian;
    TypeBytes(qtype, BigEndian(1, 2));
    var s := BigEndian(qtype, 2) + BigEndian(1, 2);
    var b := pre + s;
    assert b[|pre|] == s[0] && b[|pre| + 1] == s[1];
  }

  /**
   A query parses back to the name and type it was built for exactly when every label of the name
   has 1 to 63 bytes and labels with their length bytes take at most 255, which with the final zero
   makes a name of 256 octets on the wire.
   */
  lemma QueryRoundTrip(name: Octets, qtype: Uint16)
    ensures
      var q, ls := ParseQuestion(DnsQuery(name, qtype)), Split(name, DOT);
      q == Some(Question(name, ls, qtype)) <==> Encodable(ls)
  {
    hide BigEndian, Labels, Split, Join, ReadName, Seen, WireLength;
    var ls := Split(name, DOT);
    var tail := BigEndian(qtype, 2) + BigEndian(1, 2);
    var b := DnsQuery(name, qtype);
    QueryFields(name, qtype);
    ReadSeen(QUERY_HEADER, ls, tail, 0);
    SeenWhole(ls);
    JoinSplit(name, DOT);
    assert Be16(b[4], b[5]) == 1;
    if Encodable(ls) {
      TypeAt(QUERY_HEADER + (Labels(ls) + [0]), qtype);
      assert b == QUERY_HEADER + (Labels(ls) + [0]) + tail;
    }
  }

  /** A label of `n` letters. */
  function Letters(n: nat): (l: Octets)
    ensures |l| == n && DOT !in l
  {
    seq(n, _ => 97)
  }

  const LONGEST: seq<Octets> := [Letters(63), Letters(63), Letters(63), Letters(62)]

  /** A name of 256 octets on the wire, one more than the protocol allows, is read back. */
  lemma LongestName(qtype: Uint16)
    ensures var name := Join(LONGEST, DOT);
            && |Labels(LONGEST) + [0]| == 256
            && ParseQuestion(DnsQuery(name, qtype)) == Some(Question(name, LONGEST, qtype))
  {
    LongestSizes();
    hide DnsQuery, ParseQuestion, Encodable, Letters, Labels, Join, Split;
    SplitJoin(LONGEST, DOT);
    QueryRoundTrip(Join(LONGEST, DOT), qtype);
  }

  lemma LongestSizes()
    ensures |Labels(LONGEST)| == 255 && Encodable(LONGEST) && forall l | l in LONGEST :: DOT !in l
  {
    hide Letters;
    var ls := LONGEST;
    assert ls[1..] == [Letters(63), Letters(63), Letters(62)];
    assert ls[1..][1..] == [Letters(63), Letters(62)];
    assert ls[1..][1..][1..] == [Letters(62)];
    var last: seq<Octets> := [Letters(62)];
    assert last[1..] == [];
  }

  /** No other name comes back: whatever is parsed from a query that cannot be encoded is not its name. */
  lemma WrongNameNeverParses(name: Octets, qtype: Uint16)
    requires !Encodable(Split(name, DOT))
    ensures var q := ParseQuestion(DnsQuery(name, qtype)); q.Some? ==> q.value.name != name
  {
    hide BigEndian, Labels, Split, Join, ReadName, Seen, WireLength;
    var ls := Split(name, DOT);
    ReadSeen(QUERY_HEADER, ls, BigEndian(qtype, 2) + BigEndian(1, 2), 0);
    SeenWhole(ls);
    SplitFree(name, DOT);
    SeenFree(ls);
    if Seen(ls) != [] {
      SplitJoin(Seen(ls), DOT);
    }
  }

  lemma {:induction false} SeenFree(ls: seq<Octets>)
    requires forall l | l in ls :: DOT !in l
    ensures forall l | l in Seen(ls) :: DOT !in l
  {
    if ls != [] && ls[0] != [] {
      assert ls[0] in ls;
      SeenFree(ls[1..]);
    }
  }

  // --- what is read, and nothing else ---

  /** The bytes from `at` to `end` spell these labels: each of 1 to 63 bytes behind its length, then a zero. */
  ghost predicate Spelled(b: Octets, at: nat, ls: seq<Octets>, end: nat)
    decreases |ls|
  {
    if ls == [] then at < |b| && b[at] == 0 && end == at + 1
    else
      var next := at + 1 + |ls[0]|;
      && 1 <= |ls[0]| <= 63 && next <= |b| && b[at] == |ls[0]| && b[at + 1..next] == ls[0]
      && Spelled(b, next, ls[1..], end)
  }

  /** A name is read exactly when it is spelled there within 255 bytes of labels and lengths. */
  lemma {:induction false} NameExact(b: Octets, off: nat, total: nat, ls: seq<Octets>, end: nat)
    ensures ReadName(b, off, total) == Some((ls, end))
            <==> Spelled(b, off, ls, end) && (ls == [] || total + WireLength(ls) <= 255)
    decreases |ls|
  {
    hide ReadName, Spelled, WireLength;
    if ls == [] {
      EmptyExact(b, off, total, end);
    } else {
      var n := |ls[0]|;
      NameExact(b, off + 1 + n, total + n + 1, ls[1..], end);
      LabelExact(b, off, total, ls, end);
      LengthStep(ls);
    }
  }

  lemma LengthStep(ls: seq<Octets>)
    requires ls != []
    ensures WireLength(ls) == |ls[0]| + 1 + WireLength(ls[1..])
    ensures ls[1..] == [] ==> WireLength(ls[1..]) == 0
  {
  }

  lemma EmptyExact(b: Octets, off: nat, total: nat, end: nat)
    ensures ReadName(b, off, total) == Some(([], end)) <==> Spelled(b, off, [], end)
  {
    if off < |b| && 1 <= b[off] <= 63 && off + 1 + b[off] <= |b| {
      var next := off + 1 + b[off];
      NotEmpty(b[off + 1..next], end, ReadName(b, next, total + b[off] + 1));
    }
  }

  lemma NotEmpty(l: Octets, end: nat, r: Option<(seq<Octets>, nat)>)
    ensures Onto([l], r) != Some(([], end))
  {
  }

  /** The first label is there and fits, and what is read after it is the rest. */
  lemma LabelExact(b: Octets, off: nat, total: nat, ls: seq<Octets>, end: nat)
    requires ls != []
    ensures var n := |ls[0]|;
            var next := off + 1 + n;
            var there := 1 <= n <= 63 && next <= |b| && b[off] == n && b[off + 1..next] == ls[0];
            && (ReadName(b, off, total) == Some((ls, end))
                <==> there && total + n + 1 <= 255 && ReadName(b, next, total + n + 1) == Some((ls[1..], end)))
            && (Spelled(b, off, ls, end) <==> there && Spelled(b, next, ls[1..], end))
  {
    if off < |b| && 1 <= b[off] <= 63 && off + 1 + b[off] <= |b| {
      var next := off + 1 + b[off];
      FirstRead(b[off + 1..next], ls, end, ReadName(b, next, total + b[off] + 1));
    }
  }

  lemma FirstRead(l: Octets, ls: seq<Octets>, end: nat, r: Option<(seq<Octets>, nat)>)
    requires ls != []
    ensures Onto([l], r) == Some((ls, end)) <==> ls[0] == l && r == Some((ls[1..], end))
  {
    HeadTail(ls);
    if r.Some? {
      assert ([l] + r.value.0)[1..] == r.value.0;
    }
  }

  /**
   A question is read from exactly these messages: queries, not answers, that count a question and spell
   its name of at least one label, with its type and two bytes more behind it.
   */
  lemma QuestionExact(b: Octets, q: Question)
    ensures ParseQuestion(b) == Some(q)
            <==> |b| >= 12 && b[2] < 128 && !(b[4] == 0 && b[5] == 0)
                 && q.labels != [] && q.name == Join(q.labels, 46) && WireLength(q.labels) <= 255
                 && exists end: nat :: Spelled(b, 12, q.labels, end) && end + 4 <= |b| && q.qtype == 256 * (b[end] as int) + b[end + 1] as int
  {
    hide ReadName, Spelled, Join, WireLength;
    if |b| >= 12 {
      var r := ReadName(b, 12, 0);
      if r.Some? {
        NameExact(b, 12, 0, r.value.0, r.value.1);
      }
      if end: nat :| Spelled(b, 12, q.labels, end) && end + 4 <= |b| && q.qtype == 256 * (b[end] as int) + b[end + 1] as int {
        NameExact(b, 12, 0, q.labels, end);
      }
    }
  }

  // --- registered domains ---

  function Pair(a: Octets, b: Octets): Octets { a + ([DOT] + b) }

  /** How many trailing labels make the registered domain; `suffixes` are those that take two labels. */
  function RegisteredLabels(ls: seq<Octets>, suffixes: set<Octets>): nat {
    if |ls| >= 3 && Pair(ls[|ls| - 2], ls[|ls| - 1]) in suffixes then 3 else Min(|ls|, 2)
  }

  function RegisteredDomain(ls: seq<Octets>, suffixes: set<Octets>): Octets {
    var n := |ls|;
    if n == 0 then []
    else if n == 1 then ls[0]
    else if n >= 3 && Pair(ls[n - 2], ls[n - 1]) in suffixes then Pair(ls[n - 3], Pair(ls[n - 2], ls[n - 1]))
    else Pair(ls[n - 2], ls[n - 1])
  }

  function SubdomainOf(ls: seq<Octets>, suffixes: set<Octets>): Octets {
    var keep := |ls| - RegisteredLabels(ls, suffixes);
    if keep <= 0 then [] else Join(ls[..keep], DOT)
  }

  lemma {:induction false} JoinAt(ls: seq<Octets>, n: nat)
    requires 0 < n < |ls|
    ensures Join(ls, DOT) == Pair(Join(ls[..n], DOT), Join(ls[n..], DOT))
  {
    var a, rest := ls[0], ls[1..];
    JoinOne(a, DOT);
    hide Join;
    assert ls == [a] + rest;
    JoinFront(a, rest, DOT);
    if n == 1 {
      assert ls[..1] == [a];
    } else {
      JoinAt(rest, n - 1);
      assert ls[..n] == [a] + rest[..n - 1] && rest[n - 1..] == ls[n..];
      JoinFront(a, rest[..n - 1], DOT);
      var c, d := Join(rest[..n - 1], DOT), Join(ls[n..], DOT);
      Assoc([DOT], c, [DOT] + d);
      Assoc(a, [DOT] + c, [DOT] + d);
    }
  }

  lemma JoinFrom(ls: seq<Octets>, i: nat, next: nat)
    requires i < |ls| && next == i + 1
    ensures Join(ls[i..], DOT) == if next == |ls| then ls[i] else Pair(ls[i], Join(ls[next..], DOT))
  {
    JoinTail(ls[i..], DOT);
    hide Join;
    assert ls[i..][1..] == ls[next..];
  }

  lemma JoinLastTwo(ls: seq<Octets>, i: nat, last: nat)
    requires last == i + 1 && |ls| == last + 1
    ensures Join(ls[i..], DOT) == Pair(ls[i], ls[last])
  {
    hide Join, Pair;
    JoinFrom(ls, i, last);
    JoinFrom(ls, last, |ls|);
  }

  lemma JoinLastThree(ls: seq<Octets>, i: nat, next: nat, last: nat)
    requires next == i + 1 && last == i + 2 && |ls| == last + 1
    ensures Join(ls[i..], DOT) == Pair(ls[i], Pair(ls[next], ls[last]))
  {
    hide Join, Pair;
    JoinFrom(ls, i, next);
    JoinLastTwo(ls, next, last);
  }

  lemma RegisteredIsTail(ls: seq<Octets>, suffixes: set<Octets>)
    requires ls != []
    ensures RegisteredDomain(ls, suffixes) == Join(ls[|ls| - RegisteredLabels(ls, suffixes)..], DOT)
  {
    hide Join, Pair;
    var n := |ls|;
    if n == 1 {
      JoinFrom(ls, 0, 1);
    } else if n >= 3 && Pair(ls[n - 2], ls[n - 1]) in suffixes {
      JoinLastThree(ls, n - 3, n - 2, n - 1);
    } else {
      JoinLastTwo(ls, n - 2, n - 1);
    }
  }

  lemma RegisteredSome(ls: seq<Octets>, suffixes: set<Octets>)
    requires ls != []
    ensures 0 < RegisteredLabels(ls, suffixes) <= |ls|
  {
  }

  /** The registered domain is the shortest tail of two labels or more that is no known suffix; three at most. */
  lemma RegisteredShortest(ls: seq<Octets>, suffixes: set<Octets>)
    requires |ls| >= 2
    ensures var k := RegisteredLabels(ls, suffixes);
            && 2 <= k <= Min(3, |ls|)
            && (k == 3 ==> Join(ls[|ls| - 2..], DOT) in suffixes)
            && (k == 2 && |ls| >= 3 ==> Join(ls[|ls| - 2..], DOT) !in suffixes)
  {
    hide Join, Pair;
    JoinLastTwo(ls, |ls| - 2, |ls| - 1);
  }

  /** Subdomain and registered domain always recompose to the name. */
  lemma DomainsRecompose(ls: seq<Octets>, suffixes: set<Octets>)
    requires ls != []
    ensures
      var k := RegisteredLabels(ls, suffixes);
      Join(ls, DOT) == if k < |ls| then Pair(SubdomainOf(ls, suffixes), RegisteredDomain(ls, suffixes))
                       else RegisteredDomain(ls, suffixes)
  {
    hide Join, Pair, RegisteredLabels, RegisteredDomain;
    var k := RegisteredLabels(ls, suffixes);
    RegisteredSome(ls, suffixes);
    RegisteredIsTail(ls, suffixes);
    if k < |ls| {
      JoinAt(ls, |ls| - k);
    } else {
      assert ls[0..] == ls;
    }
  }
}
