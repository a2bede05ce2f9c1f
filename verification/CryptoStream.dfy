/**
 Reassembly of CRYPTO fragments into the TLS handshake stream: an interval set kept sorted and
 merged in place beside the bytes received.
 */
module CryptoStreams {
  import opened Bytes
  import opened Collections
  import opened Frames
  import opened Sorting

  /** A received byte range, end excluded. */
  datatype Span = Span(start: nat, end: nat)

  function StartKey(s: Span): real { s.start as real }

  ghost predicate Covered(spans: seq<Span>, i: nat) {
    exists s | s in spans :: s.start <= i < s.end
  }

  /** Sorted, with a gap before every span but the first. */
  ghost predicate Canonical(spans: seq<Span>) {
    && (forall s | s in spans :: s.start <= s.end)
    && (forall j, k | 0 <= j < k < |spans| :: spans[j].end < spans[k].start)
  }

  // --- merging ---

  /** The merge of `last` with the later spans `rest`. */
  function Coalesce(last: Span, rest: seq<Span>): (r: seq<Span>)
    ensures |r| > 0
    decreases |rest|
  {
    if rest == [] then [last]
    else if rest[0].start <= last.end then Coalesce(Widened(last, rest[0]), rest[1..])
    else [last] + Coalesce(rest[0], rest[1..])
  }

  /** `last` starts no later than the spans still to merge, and those are sorted. */
  ghost predicate Ready(last: Span, rest: seq<Span>) {
    && last.start <= last.end && SortedBy(rest, StartKey)
    && forall k | 0 <= k < |rest| :: last.start <= rest[k].start <= rest[k].end
  }

  function Widened(last: Span, next: Span): Span {
    Span(last.start, Max(last.end, next.end))
  }

  lemma CoalesceStep(last: Span, rest: seq<Span>)
    requires rest != []
    ensures Coalesce(last, rest) ==
            if rest[0].start <= last.end then Coalesce(Widened(last, rest[0]), rest[1..])
            else [last] + Coalesce(rest[0], rest[1..])
  {
  }

  /** What is written once a span is read: it widens the last one, or comes after it. */
  function Compacted(out: seq<Span>, s: Span): (r: seq<Span>)
    requires out != []
    ensures |out| <= |r| <= |out| + 1
  {
    var n := |out| - 1;
    if s.start <= out[n].end then out[..n] + [Widened(out[n], s)] else out + [s]
  }

  /** What is written, and the spans from `i` on still to read. */
  ghost predicate Compacting(out: seq<Span>, spans: seq<Span>, i: nat)
    requires out != [] && 1 <= i <= |spans|
  {
    out[..|out| - 1] + Coalesce(out[|out| - 1], spans[i..]) == Coalesce(spans[0], spans[1..])
  }

  lemma CompactStep(out: seq<Span>, spans: seq<Span>, i: nat)
    requires out != [] && 1 <= i < |spans| && Compacting(out, spans, i)
    ensures Compacting(Compacted(out, spans[i]), spans, i + 1)
  {
    hide Coalesce, Widened;
    var n, s := |out| - 1, spans[i];
    CoalesceStep(out[n], spans[i..]);
    assert spans[i..][1..] == spans[i + 1..];
    if s.start <= out[n].end {
      assert Compacted(out, s)[..n] == out[..n];
    } else {
      assert Compacted(out, s)[..n + 1] == out[..n] + [out[n]];
      Assoc(out[..n], [out[n]], Coalesce(s, spans[i + 1..]));
    }
  }

  lemma CompactStarts(spans: seq<Span>)
    requires spans != []
    ensures Compacting([spans[0]], spans, 1)
  {
    assert [] + Coalesce(spans[0], spans[1..]) == Coalesce(spans[0], spans[1..]);
  }

  lemma CompactEnds(out: seq<Span>, spans: seq<Span>)
    requires out != [] && spans != [] && Compacting(out, spans, |spans|)
    ensures out == Coalesce(spans[0], spans[1..])
  {
    assert out == out[..|out| - 1] + [out[|out| - 1]];
  }

  lemma ReadyTail(last: Span, rest: seq<Span>)
    requires Ready(last, rest) && rest != []
    ensures Ready(rest[0], rest[1..]) && Ready(Widened(last, rest[0]), rest[1..])
  {
    forall k | 0 <= k < |rest[1..]| ensures rest[0].start <= rest[1..][k].start <= rest[1..][k].end {
      assert StartKey(rest[0]) <= StartKey(rest[k + 1]);
    }
  }

  lemma {:induction false} CoalesceCanonical(last: Span, rest: seq<Span>)
    requires Ready(last, rest)
    ensures Canonical(Coalesce(last, rest))
    ensures Coalesce(last, rest)[0].start == last.start
    decreases |rest|
  {
    if rest == [] {
    } else {
      ReadyTail(last, rest);
      if rest[0].start <= last.end {
        CoalesceCanonical(Widened(last, rest[0]), rest[1..]);
      } else {
        CoalesceCanonical(rest[0], rest[1..]);
      }
    }
  }

  lemma CoveredSplit(first: Span, rest: seq<Span>, i: nat)
    ensures Covered([first] + rest, i) <==> first.start <= i < first.end || Covered(rest, i)
  {
    assert first in [first] + rest;
    if Covered(rest, i) {
      var s :| s in rest && s.start <= i < s.end;
      assert s in [first] + rest;
    }
  }

  lemma {:induction false} CoalesceCovers(last: Span, rest: seq<Span>, i: nat)
    requires Ready(last, rest)
    ensures Covered(Coalesce(last, rest), i) <==> last.start <= i < last.end || Covered(rest, i)
    decreases |rest|
  {
    if rest == [] {
      CoveredSplit(last, [], i);
      assert [last] + [] == [last];
    } else {
      ReadyTail(last, rest);
      assert rest == [rest[0]] + rest[1..];
      CoveredSplit(rest[0], rest[1..], i);
      hide Covered;
      if rest[0].start <= last.end {
        CoalesceCovers(Widened(last, rest[0]), rest[1..], i);
      } else {
        CoalesceCovers(rest[0], rest[1..], i);
        CoveredSplit(last, Coalesce(rest[0], rest[1..]), i);
      }
    }
  }

  /** One span widens the last of the first `n`, which are `out`, or is written after them. */
  method CompactOne(a: array<Span>, n: nat, s: Span, ghost out: seq<Span>) returns (m: nat)
    requires 0 < n == |out| < a.Length && forall k | 0 <= k < n :: a[k] == out[k]
    modifies a
    ensures m == |Compacted(out, s)| && forall k | 0 <= k < m :: a[k] == Compacted(out, s)[k]
    ensures forall k | n < k < a.Length :: a[k] == old(a[k])
  {
    if s.start <= a[n - 1].end {
      if s.end > a[n - 1].end {
        a[n - 1] := a[n - 1].(end := s.end);
      }
      return n;
    }
    a[n] := s;
    return n + 1;
  }

  /** The loop of the compaction, over an array that starts out as `was`. */
  method CompactFrom(a: array<Span>, ghost was: seq<Span>) returns (n: nat, ghost out: seq<Span>)
    requires a.Length == |was| > 0 && forall k | 0 <= k < |was| :: a[k] == was[k]
    modifies a
    ensures out == Coalesce(was[0], was[1..]) && 0 < n == |out| <= a.Length
    ensures forall k | 0 <= k < n :: a[k] == out[k]
  {
    hide Coalesce, Compacting, Compacted;
    out := [was[0]];
    CompactStarts(was);
    n := 1;
    var i := 1;
    while i < a.Length
      invariant 1 <= n == |out| <= i <= a.Length && Compacting(out, was, i)
      invariant forall k | 0 <= k < n :: a[k] == out[k]
      invariant forall k | i <= k < a.Length :: a[k] == was[k]
    {
      CompactStep(out, was, i);
      n := CompactOne(a, n, a[i], out);
      out := Compacted(out, was[i]);
      i := i + 1;
    }
    CompactEnds(out, was);
  }

  /**
   Compaction in place: the merged spans overwrite the front of the array while the rest of it
   is still being read. Returns how many are left.
   */
  method CompactInPlace(a: array<Span>) returns (n: nat)
    requires a.Length > 0
    modifies a
    ensures 0 < n <= a.Length && a[..n] == Coalesce(old(a[0]), old(a[1..]))
  {
    hide Coalesce;
    ghost var out;
    n, out := CompactFrom(a, a[..]);
    assert a[..n] == out;
  }

  /** Sorting by start, in place; which of two equal starts comes first is left open. */
  method SortInPlace(a: array<Span>)
    modifies a
    ensures multiset(a[..]) == multiset(old(a[..])) && SortedBy(a[..], StartKey)
  {
    var sorted := Sort(a[..], StartKey);
    SortSorts(a[..], StartKey);
    forall i | 0 <= i < a.Length {
      a[i] := sorted[i];
    }
    assert a[..] == sorted;
  }

  // --- the stream ---

  /** What is buffered: the bytes, zero where none arrived, and the ranges received. */
  datatype Buffered = Buffered(data: Octets, spans: seq<Span>)

  const EMPTY := Buffered([], [])

  ghost predicate WellFormed(b: Buffered) {
    && |b.data| <= MAX_CRYPTO_BYTES
    && Canonical(b.spans)
    && (forall s | s in b.spans :: s.end <= |b.data|)
  }

  predicate InBounds(f: CryptoFrame) { f.offset + |f.data| <= MAX_CRYPTO_BYTES }

  ghost predicate Within(f: CryptoFrame, i: nat) { f.offset <= i < f.offset + |f.data| }

  /** `after` is `before` with the bytes of `f` written over it and its range added. */
  ghost predicate Received(before: Buffered, f: CryptoFrame, after: Buffered) {
    && InBounds(f) && WellFormed(after)
    && |after.data| == Max(|before.data|, f.offset + |f.data|)
    && (forall i | 0 <= i < |after.data| ::
          after.data[i] == if Within(f, i) then f.data[i - f.offset] else if i < |before.data| then before.data[i] else 0)
    && (forall i: nat :: Covered(after.spans, i) <==> Covered(before.spans, i) || Within(f, i))
  }

  /** The length of the unbroken run that starts at offset zero. */
  function Contiguous(b: Buffered): nat {
    if b.spans == [] || b.spans[0].start != 0 then 0 else b.spans[0].end
  }

  /** A handshake message is a type byte, a 24-bit length and that many bytes. */
  function MessageLength(data: Octets): nat
    requires |data| >= 4
  {
    4 + Be24(data[1], data[2], data[3])
  }

  function Handshake(b: Buffered): Option<Octets>
    requires WellFormed(b)
  {
    var have := Contiguous(b);
    if have < 4 then None
    else
      var total := MessageLength(b.data);
      if total > MAX_CRYPTO_BYTES || have < total then None else Some(b.data[..total])
  }

  /** `Contiguous` is the largest `n` with every byte of [0, n) received. */
  lemma ContiguousIsLargest(b: Buffered)
    requires WellFormed(b)
    ensures forall i | 0 <= i < Contiguous(b) :: Covered(b.spans, i)
    ensures !Covered(b.spans, Contiguous(b))
  {
    if b.spans != [] && b.spans[0].start == 0 {
      assert b.spans[0] in b.spans;
    }
    forall s | s in b.spans ensures !(s.start <= Contiguous(b) < s.end) {
      var k :| 0 <= k < |b.spans| && b.spans[k] == s;
      assert k == 0 || b.spans[0].end < b.spans[k].start;
    }
  }

  /** The buffer grown to hold `f`, and `f` copied into it. */
  function Written(data: Octets, f: CryptoFrame): (r: Octets)
    ensures |r| == Max(|data|, f.offset + |f.data|)
  {
    var end := f.offset + |f.data|;
    var grown := if |data| < end then data + Zeros(end - |data|) else data;
    grown[..f.offset] + f.data + grown[end..]
  }

  lemma WrittenBytes(data: Octets, f: CryptoFrame)
    ensures var r := Written(data, f);
            forall i | 0 <= i < |r| ::
              r[i] == if Within(f, i) then f.data[i - f.offset] else if i < |data| then data[i] else 0
  {
  }

  class CryptoStream {
    var data: Octets
    var spans: seq<Span>

    ghost function State(): Buffered
      reads this
    {
      Buffered(data, spans)
    }

    ghost predicate Valid()
      reads this
    {
      WellFormed(State())
    }

    constructor ()
      ensures Valid() && State() == EMPTY
    {
      data := [];
      spans := [];
    }

    method Add(f: CryptoFrame) returns (ok: bool)
      requires Valid()
      modifies this
      ensures Valid() && ok == (f.offset + |f.data| <= 16384) == InBounds(f)
      ensures if ok then Received(old(State()), f, State()) else State() == old(State())
    {
      hide Written;
      var end := f.offset + |f.data|;
      if end > MAX_CRYPTO_BYTES {
        return false;
      }
      WrittenBytes(data, f);
      data := Written(data, f);
      AppendCovers(spans, Span(f.offset, end));
      spans := spans + [Span(f.offset, end)];
      Merge();
      return true;
    }

    /** The complete handshake message, if it has all arrived. */
    method TakeHandshake() returns (body: Option<Octets>)
      requires Valid()
      ensures body == Handshake(State())
    {
      var have := if spans == [] || spans[0].start != 0 then 0 else spans[0].end;
      if have < 4 {
        return None;
      }
      var total := MessageLength(data);
      if total > MAX_CRYPTO_BYTES || have < total {
        return None;
      }
      return Some(data[..total]);
    }

    method Merge()
      requires spans != []
      requires forall s | s in spans :: s.start <= s.end <= |data|
      modifies `spans
      ensures Canonical(spans) && forall s | s in spans :: s.end <= |data|
      ensures forall i: nat :: Covered(spans, i) <==> Covered(old(spans), i)
    {
      hide Covered, Coalesce, SortedBy, Ready;
      if |spans| < 2 {
        OneCanonical(spans);
        return;
      }
      var a := new Span[|spans|](i requires 0 <= i < |spans| reads this => spans[i]);
      assert a[..] == spans;
      SortInPlace(a);
      ghost var sorted := a[..];
      SortedSpans(spans, sorted, |data|);
      var n := CompactInPlace(a);
      assert sorted == [sorted[0]] + sorted[1..];
      CoalesceCanonical(sorted[0], sorted[1..]);
      CoalesceEnds(sorted[0], sorted[1..], |data|);
      forall i: nat ensures Covered(a[..n], i) <==> Covered(spans, i) {
        CoalesceCovers(sorted[0], sorted[1..], i);
        CoveredSplit(sorted[0], sorted[1..], i);
        SameCover(spans, sorted, i);
      }
      spans := a[..n];
    }
  }

  lemma OneCanonical(spans: seq<Span>)
    requires |spans| < 2 && forall s | s in spans :: s.start <= s.end
    ensures Canonical(spans)
  {
  }

  lemma AppendCovers(spans: seq<Span>, s: Span)
    ensures forall i: nat :: Covered(spans + [s], i) <==> Covered(spans, i) || s.start <= i < s.end
  {
    forall i: nat ensures Covered(spans + [s], i) <==> Covered(spans, i) || s.start <= i < s.end {
      if Covered(spans, i) {
        var t :| t in spans && t.start <= i < t.end;
        assert t in spans + [s];
      }
      assert s in spans + [s];
    }
  }

  lemma SameCover(a: seq<Span>, b: seq<Span>, i: nat)
    requires multiset(a) == multiset(b)
    ensures Covered(a, i) <==> Covered(b, i)
  {
    if Covered(a, i) {
      var s :| s in a && s.start <= i < s.end;
      assert s in multiset(b);
    }
    if Covered(b, i) {
      var s :| s in b && s.start <= i < s.end;
      assert s in multiset(a);
    }
  }

  lemma SortedSpans(a: seq<Span>, sorted: seq<Span>, limit: nat)
    requires a != [] && multiset(a) == multiset(sorted) && SortedBy(sorted, StartKey)
    requires forall s | s in a :: s.start <= s.end <= limit
    ensures sorted != [] && Ready(sorted[0], sorted[1..])
    ensures sorted[0].end <= limit && forall s | s in sorted[1..] :: s.end <= limit
  {
    SameLength(a, sorted);
    forall s | s in sorted ensures s in a {
      assert s in multiset(a);
    }
    forall k | 0 <= k < |sorted[1..]| ensures sorted[0].start <= sorted[1..][k].start {
      assert StartKey(sorted[0]) <= StartKey(sorted[k + 1]);
    }
  }

  lemma {:induction false} CoalesceEnds(last: Span, rest: seq<Span>, limit: nat)
    requires last.end <= limit && forall s | s in rest :: s.end <= limit
    ensures forall s | s in Coalesce(last, rest) :: s.end <= limit
    decreases |rest|
  {
    if rest == [] {
    } else if rest[0].start <= last.end {
      CoalesceEnds(Widened(last, rest[0]), rest[1..], limit);
    } else {
      CoalesceEnds(rest[0], rest[1..], limit);
    }
  }

  // --- runs: fragments of one stream, in any order ---

  ghost predicate FragmentOf(f: CryptoFrame, stream: Octets) {
    f.offset + |f.data| <= |stream| && f.data == stream[f.offset..f.offset + |f.data|]
  }

  ghost predicate WithinAny(fs: seq<CryptoFrame>, i: nat) {
    exists f | f in fs :: Within(f, i)
  }

  /** Every byte of [0, n) is in some fragment. */
  ghost predicate AllWithin(fs: seq<CryptoFrame>, n: nat) {
    forall i: nat | i < n :: WithinAny(fs, i)
  }

  /** `run[k + 1]` is `run[k]` after fragment `k`, from an empty stream. */
  ghost predicate IsRun(run: seq<Buffered>, fs: seq<CryptoFrame>) {
    && |run| == |fs| + 1 && run[0] == EMPTY
    && forall k | 0 <= k < |fs| :: Received(run[k], fs[k], run[k + 1])
  }

  /** After any run the spans cover exactly the union of the ranges received. */
  lemma {:induction false} RunCoversUnion(run: seq<Buffered>, fs: seq<CryptoFrame>, i: nat)
    requires IsRun(run, fs)
    ensures WellFormed(run[|fs|])
    ensures Covered(run[|fs|].spans, i) <==> WithinAny(fs, i)
    decreases |fs|
  {
    if fs == [] {
    } else {
      var n := |fs| - 1;
      RunCoversUnion(run[..n + 1], fs[..n], i);
      assert Received(run[n], fs[n], run[n + 1]);
      if WithinAny(fs[..n], i) {
        var f :| f in fs[..n] && Within(f, i);
        assert f in fs;
      }
      if WithinAny(fs, i) {
        var f :| f in fs && Within(f, i);
        assert f in fs[..n] || f == fs[n];
      }
    }
  }

  /** Received bytes are the stream's own, however fragments overlapped or repeated. */
  lemma {:induction false} RunKeepsBytes(run: seq<Buffered>, fs: seq<CryptoFrame>, stream: Octets, i: nat)
    requires IsRun(run, fs) && forall f | f in fs :: FragmentOf(f, stream)
    requires Covered(run[|fs|].spans, i)
    ensures i < |run[|fs|].data| && i < |stream| && run[|fs|].data[i] == stream[i]
    decreases |fs|
  {
    if fs == [] {
    } else {
      var n := |fs| - 1;
      var b, f, a := run[n], fs[n], run[n + 1];
      assert Received(b, f, a);
      var s :| s in a.spans && s.start <= i < s.end;
      if Within(f, i) {
        assert FragmentOf(f, stream);
      } else {
        RunKeepsBytes(run[..n + 1], fs[..n], stream, i);
      }
    }
  }

  /**
   For fragments of one stream in any order, overlapping or repeated, the handshake is available
   exactly when every byte of the stream's first message (of at most MAX_CRYPTO_BYTES) is in some
   fragment, and it is then that message.
   */
  lemma HandshakeExactlyWhenCovered(run: seq<Buffered>, fs: seq<CryptoFrame>, stream: Octets)
    requires IsRun(run, fs) && forall f | f in fs :: FragmentOf(f, stream)
    ensures WellFormed(run[|fs|])
    ensures Handshake(run[|fs|])
            == if |stream| >= 4 && MessageLength(stream) <= Min(|stream|, MAX_CRYPTO_BYTES) && AllWithin(fs, MessageLength(stream))
               then Some(stream[..MessageLength(stream)]) else None
  {
    var b := run[|fs|];
    RunCoversUnion(run, fs, 0);
    ContiguousIsLargest(b);
    var have := Contiguous(b);
    forall i: nat | i < have ensures i < |b.data| && i < |stream| && b.data[i] == stream[i] && WithinAny(fs, i) {
      RunCoversUnion(run, fs, i);
      RunKeepsBytes(run, fs, stream, i);
    }
    RunCoversUnion(run, fs, have);
    if have > 0 {
      RunKeepsBytes(run, fs, stream, have - 1);
    }
    if |stream| >= 4 && AllWithin(fs, MessageLength(stream)) {
      assert have >= MessageLength(stream);
    }
    if have >= 4 {
      assert MessageLength(b.data) == MessageLength(stream);
      if have >= MessageLength(stream) {
        assert b.data[..MessageLength(stream)] == stream[..MessageLength(stream)];
      }
    }
  }
}
