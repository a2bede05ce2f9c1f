/**
 Evidence of DNS tunnelling over a sliding window: queries are summed into time slices, and slices
 leave from the old end. The window is judged against the plain log of queries.
 */
module DnsWindows {
  import opened Bytes
  import opened Flows

  /** What one query contributes; its entropy is a parameter. */
  datatype Query = Query(at: Time, name: Octets, subLen: nat, entropy: real, highSignal: bool)

  datatype Evidence = Evidence(queries: nat, subLenSum: nat, entropySum: real, maxSubLen: nat, highSignal: nat)

  const NO_EVIDENCE := Evidence(0, 0, 0.0, 0, 0)

  function Add(e: Evidence, q: Query): Evidence {
    Evidence(e.queries + 1, e.subLenSum + q.subLen, e.entropySum + q.entropy, Max(e.maxSubLen, q.subLen),
             e.highSignal + if q.highSignal then 1 else 0)
  }

  /** The evidence of one stretch of time. */
  datatype Bucket = Bucket(at: Time, firstSeen: Time, evidence: Evidence)

  const SLICES := 12

  /** How much time a slice covers: a twelfth of the history, or a second when that is nothing. */
  function BucketWidth(history: nat): (w: nat)
    ensures w > 0
  {
    if history / SLICES > 0 then history / SLICES else 1_000_000_000
  }

  function SliceStart(now: Time, width: nat): (start: Time)
    requires width > 0
    ensures start <= now < start + width
  {
    now - now % width
  }

  /** The query joins the newest slice: it belongs there, or it arrived out of order. */
  predicate Joins(bs: seq<Bucket>, q: Query, width: nat)
    requires width > 0
  {
    bs != [] && SliceStart(q.at, width) <= bs[|bs| - 1].at
  }

  function Recorded(bs: seq<Bucket>, q: Query, width: nat): seq<Bucket>
    requires width > 0
  {
    if Joins(bs, q, width) then
      var last := bs[|bs| - 1];
      bs[..|bs| - 1] + [last.(evidence := Add(last.evidence, q))]
    else bs + [Bucket(SliceStart(q.at, width), q.at, Add(NO_EVIDENCE, q))]
  }

  /** How many slices at the old end are over by the cutoff. */
  function Over(bs: seq<Bucket>, cutoff: Time, width: nat): (n: nat)
    ensures n <= |bs|
    ensures forall i | 0 <= i < n :: bs[i].at + width <= cutoff
    ensures n < |bs| ==> bs[n].at + width > cutoff
  {
    if bs == [] || bs[0].at + width > cutoff then 0 else 1 + Over(bs[1..], cutoff, width)
  }

  // --- what is left in the window ---

  function Merge(a: Evidence, b: Evidence): Evidence {
    Evidence(a.queries + b.queries, a.subLenSum + b.subLenSum, a.entropySum + b.entropySum,
             Max(a.maxSubLen, b.maxSubLen), a.highSignal + b.highSignal)
  }

  function Totals(bs: seq<Bucket>): Evidence {
    if bs == [] then NO_EVIDENCE else Merge(Totals(bs[..|bs| - 1]), bs[|bs| - 1].evidence)
  }

  /** The evidence of a plain list of queries. */
  function EvidenceOf(qs: seq<Query>): Evidence {
    if qs == [] then NO_EVIDENCE else Add(EvidenceOf(qs[..|qs| - 1]), qs[|qs| - 1])
  }

  lemma MergeAdds(a: Evidence, b: Evidence, q: Query)
    ensures Merge(a, NO_EVIDENCE) == a && Merge(a, Add(b, q)) == Add(Merge(a, b), q)
  {
  }

  lemma {:induction false} EvidenceJoins(a: seq<Query>, b: seq<Query>)
    ensures EvidenceOf(a + b) == Merge(EvidenceOf(a), EvidenceOf(b))
  {
    hide Add, Merge;
    if b == [] {
      assert a + b == a;
      MergeAdds(EvidenceOf(a), NO_EVIDENCE, Query(0, [], 0, 0.0, false));
    } else {
      EvidenceJoins(a, b[..|b| - 1]);
      MergeAdds(EvidenceOf(a), EvidenceOf(b[..|b| - 1]), b[|b| - 1]);
      assert (a + b)[..|a + b| - 1] == a + b[..|b| - 1];
    }
  }

  lemma {:induction false} EvidenceCounts(qs: seq<Query>)
    ensures EvidenceOf(qs).queries == |qs|
  {
    if qs != [] {
      EvidenceCounts(qs[..|qs| - 1]);
    }
  }

  function SubLengths(qs: seq<Query>): nat { if qs == [] then 0 else SubLengths(qs[..|qs| - 1]) + qs[|qs| - 1].subLen }

  function Entropies(qs: seq<Query>): real { if qs == [] then 0.0 else Entropies(qs[..|qs| - 1]) + qs[|qs| - 1].entropy }

  function HighSignals(qs: seq<Query>): nat {
    if qs == [] then 0 else HighSignals(qs[..|qs| - 1]) + if qs[|qs| - 1].highSignal then 1 else 0
  }

  /** What evidence says of its queries: how many, what they add up to, and the longest. */
  lemma {:induction false} EvidenceReads(qs: seq<Query>)
    ensures
      var e := EvidenceOf(qs);
      && e.queries == |qs| && e.subLenSum == SubLengths(qs) && e.entropySum == Entropies(qs) && e.highSignal == HighSignals(qs)
      && (forall q | q in qs :: q.subLen <= e.maxSubLen) && (e.maxSubLen == 0 || exists q :: q in qs && q.subLen == e.maxSubLen)
  {
    if qs != [] {
      var rest, last := qs[..|qs| - 1], qs[|qs| - 1];
      EvidenceReads(rest);
      assert qs == rest + [last];
      if EvidenceOf(qs).maxSubLen != last.subLen && EvidenceOf(qs).maxSubLen != 0 {
        var q :| q in rest && q.subLen == EvidenceOf(rest).maxSubLen;
        assert q in qs;
      }
    }
  }

  /** A slice is a twelfth of the history, or a second of no history to speak of. */
  lemma WidthReads(history: nat)
    ensures var w := BucketWidth(history); if history < 12 then w == 1_000_000_000 else 12 * w <= history < 12 * (w + 1)
  {
  }

  // --- whole runs ---

  datatype DnsEvent = Ask(q: Query) | Cut(cutoff: Time)

  function Step(bs: seq<Bucket>, e: DnsEvent, width: nat): seq<Bucket>
    requires width > 0
  {
    match e
    case Ask(q) => Recorded(bs, q, width)
    case Cut(cutoff) => bs[Over(bs, cutoff, width)..]
  }

  function Run(es: seq<DnsEvent>, width: nat): seq<Bucket>
    requires width > 0
  {
    if es == [] then [] else Step(Run(es[..|es| - 1], width), es[|es| - 1], width)
  }

  /** Every query ever asked, in order of arrival. */
  function Log(es: seq<DnsEvent>): seq<Query> {
    if es == [] then []
    else Log(es[..|es| - 1]) + if es[|es| - 1].Ask? then [es[|es| - 1].q] else []
  }

  /** The queries behind each slice. */
  function SliceStep(bs: seq<Bucket>, ss: seq<seq<Query>>, e: DnsEvent, width: nat): seq<seq<Query>>
    requires width > 0 && |ss| == |bs|
  {
    match e
    case Ask(q) => if Joins(bs, q, width) then ss[..|ss| - 1] + [ss[|ss| - 1] + [q]] else ss + [[q]]
    case Cut(cutoff) => ss[Over(bs, cutoff, width)..]
  }

  function Flat(ss: seq<seq<Query>>): seq<Query> {
    if ss == [] then [] else Flat(ss[..|ss| - 1]) + ss[|ss| - 1]
  }

  lemma {:induction false} FlatSplit(ss: seq<seq<Query>>, n: nat)
    requires n <= |ss|
    ensures Flat(ss) == Flat(ss[..n]) + Flat(ss[n..])
    decreases |ss|
  {
    if n == |ss| {
      assert ss[..n] == ss && Flat(ss[n..]) == [];
    } else {
      var init := ss[..|ss| - 1];
      FlatSplit(init, n);
      assert init[..n] == ss[..n] && ss[n..][..|ss| - n - 1] == init[n..];
    }
  }

  /** Each slice sums its own queries, none of them later than the slice, and slices go up in time. */
  ghost predicate Sliced(bs: seq<Bucket>, ss: seq<seq<Query>>, width: nat) {
    && |bs| == |ss|
    && (forall i | 0 <= i < |bs| :: ss[i] != [] && bs[i].evidence == EvidenceOf(ss[i]))
    && (forall i, q | 0 <= i < |bs| && q in ss[i] :: q.at < bs[i].at + width)
    && (forall i, j | 0 <= i < j < |bs| :: bs[i].at < bs[j].at)
  }

  lemma EvidenceOne(q: Query)
    ensures EvidenceOf([q]) == Add(NO_EVIDENCE, q)
  {
    assert [q][..0] == [];
  }

  lemma EvidenceMore(qs: seq<Query>, q: Query)
    ensures EvidenceOf(qs + [q]) == Add(EvidenceOf(qs), q)
  {
    assert (qs + [q])[..|qs|] == qs;
  }

  lemma FlatMore(ss: seq<seq<Query>>, s: seq<Query>)
    ensures Flat(ss + [s]) == Flat(ss) + s
  {
    assert (ss + [s])[..|ss|] == ss;
  }

  /** A query at the end of the newest slice. */
  lemma JoinSliced(bs: seq<Bucket>, ss: seq<seq<Query>>, q: Query, width: nat)
    requires width > 0 && Sliced(bs, ss, width) && Joins(bs, q, width)
    ensures Sliced(Recorded(bs, q, width), SliceStep(bs, ss, Ask(q), width), width)
  {
    hide EvidenceOf, Add;
    EvidenceMore(ss[|ss| - 1], q);
    var bs', ss' := Recorded(bs, q, width), SliceStep(bs, ss, Ask(q), width);
    assert forall i | 0 <= i < |bs| :: bs'[i].at == bs[i].at;
  }

  /** A query that starts a slice. */
  lemma OpenSliced(bs: seq<Bucket>, ss: seq<seq<Query>>, q: Query, width: nat)
    requires width > 0 && Sliced(bs, ss, width) && !Joins(bs, q, width)
    ensures Sliced(Recorded(bs, q, width), SliceStep(bs, ss, Ask(q), width), width)
  {
    hide EvidenceOf, Add, SliceStart;
    EvidenceOne(q);
    if bs != [] {
      forall i | 0 <= i < |bs| ensures bs[i].at < SliceStart(q.at, width) {
        assert bs[i].at <= bs[|bs| - 1].at;
      }
    }
  }

  lemma AskSliced(bs: seq<Bucket>, ss: seq<seq<Query>>, q: Query, width: nat)
    requires width > 0 && Sliced(bs, ss, width)
    ensures Sliced(Recorded(bs, q, width), SliceStep(bs, ss, Ask(q), width), width)
    ensures Flat(SliceStep(bs, ss, Ask(q), width)) == Flat(ss) + [q]
  {
    hide EvidenceOf, Add, Flat, SliceStart, SliceStep, Recorded, Joins;
    FlatAsked(bs, ss, q, width);
    if Joins(bs, q, width) {
      JoinSliced(bs, ss, q, width);
    } else {
      OpenSliced(bs, ss, q, width);
    }
  }

  lemma FlatAsked(bs: seq<Bucket>, ss: seq<seq<Query>>, q: Query, width: nat)
    requires width > 0 && |bs| == |ss|
    ensures Flat(SliceStep(bs, ss, Ask(q), width)) == Flat(ss) + [q]
  {
    hide Flat, SliceStart;
    if Joins(bs, q, width) {
      SplitLast(ss);
      FlatExtended(ss[..|ss| - 1], ss[|ss| - 1], q);
    } else {
      FlatMore(ss, [q]);
    }
  }

  lemma SplitLast<T>(s: seq<T>)
    requires s != []
    ensures s == s[..|s| - 1] + [s[|s| - 1]]
  {
  }

  lemma FlatExtended(init: seq<seq<Query>>, last: seq<Query>, q: Query)
    ensures Flat(init + [last + [q]]) == Flat(init + [last]) + [q]
  {
    hide Flat;
    FlatMore(init, last);
    FlatMore(init, last + [q]);
  }

  lemma CutSliced(bs: seq<Bucket>, ss: seq<seq<Query>>, cutoff: Time, width: nat)
    requires width > 0 && Sliced(bs, ss, width)
    ensures var n := Over(bs, cutoff, width);
            && Sliced(bs[n..], ss[n..], width) && Flat(ss) == Flat(ss[..n]) + Flat(ss[n..])
            && forall i | 0 <= i < |Flat(ss[..n])| :: Flat(ss[..n])[i].at < cutoff
  {
    hide EvidenceOf, Flat;
    var n := Over(bs, cutoff, width);
    FlatSplit(ss, n);
    forall q | q in Flat(ss[..n]) ensures q.at < cutoff {
      InFlat(ss[..n], q);
    }
  }

  lemma {:induction false} InFlat(ss: seq<seq<Query>>, q: Query)
    requires q in Flat(ss)
    ensures exists i :: 0 <= i < |ss| && q in ss[i]
  {
    if q in Flat(ss[..|ss| - 1]) {
      InFlat(ss[..|ss| - 1], q);
      var i :| 0 <= i < |ss| - 1 && q in ss[..|ss| - 1][i];
      assert q in ss[i];
    } else {
      assert q in ss[|ss| - 1];
    }
  }

  lemma EvidenceNone()
    ensures EvidenceOf([]) == NO_EVIDENCE
  {
  }

  lemma {:induction false} TotalsFlat(bs: seq<Bucket>, ss: seq<seq<Query>>, width: nat)
    requires Sliced(bs, ss, width)
    ensures Totals(bs) == EvidenceOf(Flat(ss))
    decreases |bs|
  {
    hide EvidenceOf;
    if bs == [] {
      EvidenceNone();
    } else {
      TotalsFlat(bs[..|bs| - 1], ss[..|ss| - 1], width);
      EvidenceJoins(Flat(ss[..|ss| - 1]), ss[|ss| - 1]);
    }
  }

  /** A query this old has been cut off. */
  ghost predicate Outdated(es: seq<DnsEvent>, t: Time) {
    exists i :: 0 <= i < |es| && es[i].Cut? && t < es[i].cutoff
  }

  /** No query is older than a query or a cutoff before it. */
  ghost predicate InOrder(es: seq<DnsEvent>) {
    forall i, j | 0 <= i < j < |es| && es[j].Ask? ::
      (if es[i].Ask? then es[i].q.at else es[i].cutoff) <= es[j].q.at
  }

  /** The slices hold a suffix of the log, and whatever is missing was cut off. */
  ghost predicate Holds(es: seq<DnsEvent>, bs: seq<Bucket>, ss: seq<seq<Query>>, width: nat) {
    Sliced(bs, ss, width) && Suffix(es, Log(es), Flat(ss))
  }

  ghost predicate Suffix(es: seq<DnsEvent>, log: seq<Query>, kept: seq<Query>) {
    && |kept| <= |log| && kept == log[|log| - |kept|..]
    && forall i | 0 <= i < |log| - |kept| :: Outdated(es, log[i].at)
  }

  /** A query has come at or after this time. */
  ghost predicate Reached(es: seq<DnsEvent>, t: Time) {
    exists j :: 0 <= j < |es| && es[j].Ask? && t <= es[j].q.at
  }

  /** In order, no slice starts after its queries, and no slice is over by a cutoff so far. */
  ghost predicate Tight(es: seq<DnsEvent>, bs: seq<Bucket>, ss: seq<seq<Query>>, width: nat) {
    && |bs| == |ss|
    && (forall i, q | 0 <= i < |bs| && q in ss[i] :: bs[i].at <= q.at)
    && (forall i | 0 <= i < |bs| :: Reached(es, bs[i].at))
    && (forall i, j | 0 <= i < |bs| && 0 <= j < |es| && es[j].Cut? :: bs[i].at + width > es[j].cutoff)
  }

  lemma OutdatedGrows(before: seq<DnsEvent>, es: seq<DnsEvent>, t: Time)
    requires before <= es && Outdated(before, t)
    ensures Outdated(es, t)
  {
    var i :| 0 <= i < |before| && before[i].Cut? && t < before[i].cutoff;
    assert es[i].Cut?;
  }

  lemma SuffixAsk(before: seq<DnsEvent>, log: seq<Query>, kept: seq<Query>, q: Query)
    requires Suffix(before, log, kept)
    ensures Suffix(before + [Ask(q)], log + [q], kept + [q])
  {
    hide Outdated;
    var n := |log| - |kept|;
    assert (log + [q])[n..] == log[n..] + [q];
    forall i | 0 <= i < n ensures Outdated(before + [Ask(q)], log[i].at) {
      OutdatedGrows(before, before + [Ask(q)], log[i].at);
    }
  }

  lemma SuffixCut(before: seq<DnsEvent>, log: seq<Query>, gone: seq<Query>, kept: seq<Query>, cutoff: Time)
    requires Suffix(before, log, gone + kept) && forall i | 0 <= i < |gone| :: gone[i].at < cutoff
    ensures Suffix(before + [Cut(cutoff)], log, kept)
  {
    hide Outdated;
    var m := |log| - |gone + kept|;
    SuffixOfSuffix(log, gone, kept);
    forall i | 0 <= i < m + |gone| ensures Outdated(before + [Cut(cutoff)], log[i].at) {
      if i < m {
        OutdatedGrows(before, before + [Cut(cutoff)], log[i].at);
      } else {
        assert log[i] == gone[i - m];
        CutNow(before, cutoff, log[i].at);
      }
    }
  }

  lemma LogNext(before: seq<DnsEvent>, e: DnsEvent)
    ensures Log(before + [e]) == if e.Ask? then Log(before) + [e.q] else Log(before)
  {
    assert (before + [e])[..|before|] == before;
  }

  lemma AskHolds(before: seq<DnsEvent>, bs: seq<Bucket>, ss: seq<seq<Query>>, q: Query, width: nat)
    requires width > 0 && Holds(before, bs, ss, width)
    ensures Holds(before + [Ask(q)], Recorded(bs, q, width), SliceStep(bs, ss, Ask(q), width), width)
  {
    assert |bs| == |ss|;
    hide Sliced, Recorded, SliceStep, Suffix, Flat, Log;
    AskSliced(bs, ss, q, width);
    LogNext(before, Ask(q));
    SuffixAsk(before, Log(before), Flat(ss), q);
  }

  lemma CutHolds(before: seq<DnsEvent>, bs: seq<Bucket>, ss: seq<seq<Query>>, cutoff: Time, width: nat)
    requires width > 0 && Holds(before, bs, ss, width)
    ensures Holds(before + [Cut(cutoff)], bs[Over(bs, cutoff, width)..], ss[Over(bs, cutoff, width)..], width)
  {
    assert |bs| == |ss|;
    hide Sliced, Suffix, Flat, Over, Log;
    var n := Over(bs, cutoff, width);
    CutSliced(bs, ss, cutoff, width);
    LogNext(before, Cut(cutoff));
    SuffixCut(before, Log(before), Flat(ss[..n]), Flat(ss[n..]), cutoff);
  }

  lemma SuffixOfSuffix<T>(log: seq<T>, gone: seq<T>, kept: seq<T>)
    requires |gone + kept| <= |log| && log[|log| - |gone + kept|..] == gone + kept
    ensures log[|log| - |kept|..] == kept
    ensures forall i | 0 <= i < |gone| :: log[|log| - |gone + kept| + i] == gone[i]
  {
    var m := |log| - |gone + kept|;
    forall i | 0 <= i < |gone + kept| ensures log[m + i] == (gone + kept)[i] {
      assert log[m..][i] == log[m + i];
    }
  }

  lemma CutNow(before: seq<DnsEvent>, cutoff: Time, t: Time)
    requires t < cutoff
    ensures Outdated(before + [Cut(cutoff)], t)
  {
    assert (before + [Cut(cutoff)])[|before|].Cut?;
  }

  lemma ReachedGrows(before: seq<DnsEvent>, e: DnsEvent, t: Time)
    ensures Reached(before, t) ==> Reached(before + [e], t)
    ensures e.Ask? && t <= e.q.at ==> Reached(before + [e], t)
  {
    var es := before + [e];
    assert es[|before|] == e;
    if Reached(before, t) {
      var j :| 0 <= j < |before| && before[j].Ask? && t <= before[j].q.at;
      assert es[j] == before[j];
    }
  }

  lemma JoinedLate(before: seq<DnsEvent>, q: Query, t: Time)
    requires Reached(before, t) && InOrder(before + [Ask(q)])
    ensures t <= q.at
  {
    var es := before + [Ask(q)];
    var j :| 0 <= j < |before| && before[j].Ask? && t <= before[j].q.at;
    assert es[j] == before[j] && es[|before|] == Ask(q);
  }

  lemma AskTight(before: seq<DnsEvent>, bs: seq<Bucket>, ss: seq<seq<Query>>, q: Query, width: nat)
    requires width > 0 && Tight(before, bs, ss, width) && InOrder(before + [Ask(q)])
    ensures Tight(before + [Ask(q)], Recorded(bs, q, width), SliceStep(bs, ss, Ask(q), width), width)
  {
    var es := before + [Ask(q)];
    var bs', ss' := Recorded(bs, q, width), SliceStep(bs, ss, Ask(q), width);
    CutBefore(before, q);
    hide EvidenceOf, Add, InOrder, Reached;
    forall i | 0 <= i < |bs'| ensures Reached(es, bs'[i].at) && forall x: Query | x in ss'[i] :: bs'[i].at <= x.at {
      ReachedGrows(before, Ask(q), bs'[i].at);
      if Joins(bs, q, width) {
        JoinedLate(before, q, bs[|bs| - 1].at);
        assert bs'[i].at == bs[i].at;
      }
    }
    forall i, j | 0 <= i < |bs'| && 0 <= j < |es| && es[j].Cut? ensures bs'[i].at + width > es[j].cutoff {
      assert es[j] == before[j];
      assert i < |bs| ==> bs'[i].at == bs[i].at;
    }
  }

  lemma CutTight(before: seq<DnsEvent>, bs: seq<Bucket>, ss: seq<seq<Query>>, cutoff: Time, width: nat)
    requires width > 0 && Tight(before, bs, ss, width)
    requires forall i, j | 0 <= i < j < |bs| :: bs[i].at < bs[j].at
    ensures Tight(before + [Cut(cutoff)], bs[Over(bs, cutoff, width)..], ss[Over(bs, cutoff, width)..], width)
  {
    hide Reached, Over;
    var es, n := before + [Cut(cutoff)], Over(bs, cutoff, width);
    LeftOver(bs, cutoff, width);
    forall i | n <= i < |bs| ensures Reached(es, bs[i].at) {
      ReachedGrows(before, Cut(cutoff), bs[i].at);
    }
    forall j | 0 <= j < |es| && es[j].Cut? ensures es[j].cutoff == cutoff || (j < |before| && es[j] == before[j]) {
    }
  }

  lemma LeftOver(bs: seq<Bucket>, cutoff: Time, width: nat)
    requires forall i, j | 0 <= i < j < |bs| :: bs[i].at < bs[j].at
    ensures forall i | Over(bs, cutoff, width) <= i < |bs| :: bs[i].at + width > cutoff
  {
    var n := Over(bs, cutoff, width);
    forall i | n <= i < |bs| ensures bs[i].at + width > cutoff {
      assert bs[n].at <= bs[i].at;
    }
  }

  lemma CutBefore(before: seq<DnsEvent>, q: Query)
    requires InOrder(before + [Ask(q)])
    ensures forall j | 0 <= j < |before| && before[j].Cut? :: before[j].cutoff <= q.at
  {
    var es := before + [Ask(q)];
    forall j | 0 <= j < |before| && before[j].Cut? ensures before[j].cutoff <= q.at {
      assert es[j] == before[j] && es[|before|] == Ask(q);
    }
  }

  /** The queries behind the slices after a run. */
  ghost function SlicesOf(es: seq<DnsEvent>, width: nat): (ss: seq<seq<Query>>)
    requires width > 0
    ensures |ss| == |Run(es, width)|
  {
    if es == [] then []
    else SliceStep(Run(es[..|es| - 1], width), SlicesOf(es[..|es| - 1], width), es[|es| - 1], width)
  }

  lemma {:induction false} RunHolds(es: seq<DnsEvent>, width: nat)
    requires width > 0
    ensures Holds(es, Run(es, width), SlicesOf(es, width), width)
    decreases |es|
  {
    if es != [] {
      var e, before := es[|es| - 1], es[..|es| - 1];
      assert es == before + [e];
      RunHolds(before, width);
      hide Holds, SliceStart;
      match e {
        case Ask(q) => AskHolds(before, Run(before, width), SlicesOf(before, width), q, width);
        case Cut(cutoff) => CutHolds(before, Run(before, width), SlicesOf(before, width), cutoff, width);
      }
    }
  }

  lemma {:induction false} RunTight(es: seq<DnsEvent>, width: nat)
    requires width > 0 && InOrder(es)
    ensures Tight(es, Run(es, width), SlicesOf(es, width), width)
    decreases |es|
  {
    if es != [] {
      var e, before := es[|es| - 1], es[..|es| - 1];
      assert es == before + [e];
      RunTight(before, width);
      RunHolds(before, width);
      hide Tight, Holds, InOrder, SliceStart;
      match e {
        case Ask(q) => AskTight(before, Run(before, width), SlicesOf(before, width), q, width);
        case Cut(cutoff) =>
          HoldsOrdered(before, Run(before, width), SlicesOf(before, width), width);
          CutTight(before, Run(before, width), SlicesOf(before, width), cutoff, width);
      }
    }
  }

  lemma HoldsOrdered(es: seq<DnsEvent>, bs: seq<Bucket>, ss: seq<seq<Query>>, width: nat)
    requires Holds(es, bs, ss, width)
    ensures forall i, j | 0 <= i < j < |bs| :: bs[i].at < bs[j].at
    ensures Totals(bs) == EvidenceOf(Flat(ss))
  {
    TotalsFlat(bs, ss, width);
  }

  /**
   The window is a suffix of the log. Whatever order queries come in, slices stay strictly ordered,
   the totals are exactly those of the latest queries to arrive, and every query that is gone was
   older than some cutoff. If they come in order, every query still counted is younger than each
   cutoff less one slice.
   */
  lemma WindowIsSuffix(es: seq<DnsEvent>, width: nat)
    requires width > 0
    ensures forall i, j | 0 <= i < j < |Run(es, width)| :: Run(es, width)[i].at < Run(es, width)[j].at
    ensures
      var log, kept := Log(es), Totals(Run(es, width));
      && kept.queries <= |log|
      && kept == EvidenceOf(log[|log| - kept.queries..])
      && (forall i | 0 <= i < |log| - kept.queries :: Outdated(es, log[i].at))
      && (InOrder(es) ==>
            forall i, j | |log| - kept.queries <= i < |log| && 0 <= j < |es| && es[j].Cut? :: log[i].at > es[j].cutoff - width)
  {
    hide Run, Sliced, Totals, EvidenceOf, Outdated, Tight, InOrder, Flat, SlicesOf;
    var bs, ss := Run(es, width), SlicesOf(es, width);
    RunHolds(es, width);
    HoldsOrdered(es, bs, ss, width);
    EvidenceCounts(Flat(ss));
    if InOrder(es) {
      RunTight(es, width);
      var log, m := Log(es), |Log(es)| - |Flat(ss)|;
      forall i, j | m <= i < |log| && 0 <= j < |es| && es[j].Cut? ensures log[i].at > es[j].cutoff - width {
        assert log[m..][i - m] == log[i];
        TightKept(es, bs, ss, width, log[i], j);
      }
    }
  }

  lemma TightKept(es: seq<DnsEvent>, bs: seq<Bucket>, ss: seq<seq<Query>>, width: nat, q: Query, j: nat)
    requires Tight(es, bs, ss, width) && q in Flat(ss) && j < |es| && es[j].Cut?
    ensures q.at > es[j].cutoff - width
  {
    InFlat(ss, q);
  }

  function CountSince(qs: seq<Query>, t: Time): nat {
    if qs == [] then 0 else CountSince(qs[..|qs| - 1], t) + if qs[|qs| - 1].at >= t then 1 else 0
  }

  lemma {:induction false} CountSuffix(qs: seq<Query>, m: nat, t: Time)
    requires m <= |qs|
    ensures (forall i | 0 <= i < m :: qs[i].at < t) ==> CountSince(qs, t) <= |qs| - m
    ensures (forall i | m <= i < |qs| :: qs[i].at >= t) ==> CountSince(qs, t) >= |qs| - m
  {
    if qs != [] {
      if m == |qs| {
        CountSuffix(qs[..|qs| - 1], m - 1, t);
      } else {
        CountSuffix(qs[..|qs| - 1], m, t);
      }
    }
  }

  /** No cutoff so far is later than this one. */
  ghost predicate LatestCutoff(es: seq<DnsEvent>, cutoff: Time) {
    (exists i :: 0 <= i < |es| && es[i] == Cut(cutoff)) && forall i | 0 <= i < |es| && es[i].Cut? :: es[i].cutoff <= cutoff
  }

  lemma OutdatedBefore(es: seq<DnsEvent>, cutoff: Time, t: Time)
    requires LatestCutoff(es, cutoff) && Outdated(es, t)
    ensures t < cutoff
  {
  }

  lemma CountAtLeast(es: seq<DnsEvent>, cutoff: Time, width: nat)
    requires LatestCutoff(es, cutoff) && width > 0
    ensures CountSince(Log(es), cutoff) <= Totals(Run(es, width)).queries
  {
    hide Run, Totals, Log, EvidenceOf, CountSince, InOrder, LatestCutoff, Outdated;
    WindowIsSuffix(es, width);
    var log := Log(es);
    var m := |log| - Totals(Run(es, width)).queries;
    forall i | 0 <= i < m ensures log[i].at < cutoff {
      OutdatedBefore(es, cutoff, log[i].at);
    }
    CountSuffix(log, m, cutoff);
  }

  lemma CountAtMost(es: seq<DnsEvent>, cutoff: Time, width: nat)
    requires LatestCutoff(es, cutoff) && width > 0 && InOrder(es)
    ensures Totals(Run(es, width)).queries <= CountSince(Log(es), cutoff - width + 1)
  {
    hide Run, Totals, Log, EvidenceOf, CountSince, InOrder, Outdated;
    WindowIsSuffix(es, width);
    var log := Log(es);
    var j :| 0 <= j < |es| && es[j] == Cut(cutoff);
    var m := |log| - Totals(Run(es, width)).queries;
    forall i | m <= i < |log| ensures log[i].at >= cutoff - width + 1 {
      assert es[j].Cut? && log[i].at > es[j].cutoff - width;
    }
    CountSuffix(log, m, cutoff - width + 1);
  }

  /**
   So with the detector's own slices the number of queries counted is at least the number asked at or
   after the latest cutoff, and, if they came in order, at most the number asked after that cutoff
   less one slice.
   */
  lemma CountBetween(es: seq<DnsEvent>, cutoff: Time, history: nat)
    requires LatestCutoff(es, cutoff)
    ensures
      var kept := Totals(Run(es, BucketWidth(history))).queries;
      && CountSince(Log(es), cutoff) <= kept
      && (InOrder(es) ==> kept <= CountSince(Log(es), cutoff - BucketWidth(history) + 1))
  {
    hide Run, Totals, Log, CountSince, InOrder, BucketWidth, LatestCutoff;
    CountAtLeast(es, cutoff, BucketWidth(history));
    if InOrder(es) {
      CountAtMost(es, cutoff, BucketWidth(history));
    }
  }
}
