/** The tunnelling detector's track of one domain as it runs, and its score. */
module DnsTracks {
  import opened Bytes
  import opened Collections
  import opened Flows
  import opened Stats
  import opened DnsWindows

  /** The names after a query: each with the time of its latest query, no more of them than the limit. */
  function NameAsked(unique: map<Octets, Time>, q: Query, maxUnique: nat): map<Octets, Time> {
    if q.name in unique || |unique| < maxUnique then unique[q.name := q.at] else unique
  }

  function NamesSince(unique: map<Octets, Time>, cutoff: Time): map<Octets, Time> {
    map n | n in unique && unique[n] >= cutoff :: unique[n]
  }

  lemma NamesBounded(unique: map<Octets, Time>, q: Query, maxUnique: nat)
    requires |unique| <= maxUnique
    ensures |NameAsked(unique, q, maxUnique)| <= maxUnique
  {
    assert unique[q.name := q.at].Keys == unique.Keys + {q.name};
  }

  // --- the names against the plain log ---

  /** The names held, and whether one was refused since they were last within the limit. */
  datatype Names = Names(held: map<Octets, Time>, over: bool)

  function NamesStep(s: Names, e: DnsEvent, maxUnique: nat): Names {
    match e
    case Ask(q) => Names(NameAsked(s.held, q, maxUnique), s.over || (q.name !in s.held && |s.held| >= maxUnique))
    case Cut(cutoff) => Names(NamesSince(s.held, cutoff), s.over && |NamesSince(s.held, cutoff)| >= maxUnique)
  }

  function NamesRun(es: seq<DnsEvent>, maxUnique: nat): Names {
    if es == [] then Names(map[], false) else NamesStep(NamesRun(es[..|es| - 1], maxUnique), es[|es| - 1], maxUnique)
  }

  /** When the name was last asked for, unless a later cutoff is past that. */
  function Latest(es: seq<DnsEvent>, name: Octets): Option<Time> {
    if es == [] then None
    else
      match es[|es| - 1]
      case Ask(q) => if q.name == name then Some(q.at) else Latest(es[..|es| - 1], name)
      case Cut(cutoff) =>
        var t := Latest(es[..|es| - 1], name);
        if t.Some? && t.value < cutoff then None else t
  }

  /** The limit was never in the way. */
  ghost predicate NeverOver(es: seq<DnsEvent>, maxUnique: nat) {
    forall n | 0 <= n <= |es| :: !NamesRun(es[..n], maxUnique).over
  }

  /** A name held is held under the time it was last asked for; and every such name is, unless the limit was in the way. */
  lemma {:induction false} NamesExact(es: seq<DnsEvent>, maxUnique: nat, name: Octets)
    ensures var held := NamesRun(es, maxUnique).held;
            && (name in held ==> Latest(es, name) == Some(held[name]))
            && (NeverOver(es, maxUnique) && Latest(es, name).Some? ==> name in held)
    decreases |es|
  {
    if es != [] {
      var before := es[..|es| - 1];
      NamesExact(before, maxUnique, name);
      assert es[..|es|] == es;
      if NeverOver(es, maxUnique) {
        forall n | 0 <= n <= |before| ensures !NamesRun(before[..n], maxUnique).over {
          assert before[..n] == es[..n];
        }
      }
    }
  }

  lemma NamesNext(es: seq<DnsEvent>, e: DnsEvent, maxUnique: nat)
    ensures NamesRun(es + [e], maxUnique) == NamesStep(NamesRun(es, maxUnique), e, maxUnique)
  {
    hide NamesStep;
    assert (es + [e])[..|es|] == es;
  }

  lemma RunNext(es: seq<DnsEvent>, e: DnsEvent, width: nat)
    requires width > 0
    ensures Run(es + [e], width) == Step(Run(es, width), e, width)
  {
    hide Step;
    assert (es + [e])[..|es|] == es;
  }

  class DnsTrack {
    const width: nat
    const maxUnique: nat
    var buckets: seq<Bucket>
    var unique: map<Octets, Time>
    var uniqueOver: bool
    var last: Time
    ghost var events: seq<DnsEvent> // every query and cutoff so far

    /** The slices and the names are those the events lead to, and the names stay within their limit. */
    ghost predicate Valid()
      reads this
    {
      && width > 0 && buckets == Run(events, width) && Names(unique, uniqueOver) == NamesRun(events, maxUnique)
      && |unique| <= maxUnique && (uniqueOver ==> |unique| == maxUnique)
    }

    constructor (history: nat, maxUnique: nat)
      ensures Valid() && width == BucketWidth(history) && this.maxUnique == maxUnique
      ensures buckets == [] && unique == map[] && !uniqueOver && last == UNSET && events == []
    {
      width := BucketWidth(history);
      this.maxUnique := maxUnique;
      buckets, unique, uniqueOver, last := [], map[], false, UNSET;
      events := [];
    }

    /** The place of the slice covering `now`, made if need be. */
    method BucketFor(now: Time) returns (i: nat)
      requires width > 0
      modifies `buckets
      ensures i == |buckets| - 1
      ensures if old(buckets) != [] && SliceStart(now, width) <= old(buckets)[|old(buckets)| - 1].at
              then buckets == old(buckets)
              else buckets == old(buckets) + [Bucket(SliceStart(now, width), now, NO_EVIDENCE)]
    {
      var start := now - now % width;
      if |buckets| > 0 && start <= buckets[|buckets| - 1].at {
        return |buckets| - 1;
      }
      buckets := buckets + [Bucket(start, now, NO_EVIDENCE)];
      return |buckets| - 1;
    }

    /** Add a query to the slice covering it. */
    method Count(q: Query)
      requires width > 0
      modifies `buckets
      ensures buckets == Recorded(old(buckets), q, width)
    {
      hide Add, SliceStart;
      var i := BucketFor(q.at);
      buckets := buckets[i := buckets[i].(evidence := Add(buckets[i].evidence, q))];
    }

    method OnQuery(q: Query)
      requires Valid()
      modifies this
      ensures Valid() && events == old(events) + [Ask(q)] && last == q.at
      ensures unique == NameAsked(old(unique), q, maxUnique)
      ensures uniqueOver == (old(uniqueOver) || (q.name !in old(unique) && |old(unique)| >= maxUnique))
    {
      hide Run, Recorded, NamesRun;
      RunNext(events, Ask(q), width);
      NamesNext(events, Ask(q), maxUnique);
      NamesBounded(unique, q, maxUnique);
      last := q.at;
      Count(q);
      events := events + [Ask(q)];
      if q.name in unique || |unique| < maxUnique {
        unique := unique[q.name := q.at];
      } else {
        uniqueOver := true;
      }
    }

    /** Apply a cutoff to slices and names. */
    method Prune(cutoff: Time)
      requires Valid()
      modifies `buckets, `unique, `uniqueOver, `events
      ensures Valid() && events == old(events) + [Cut(cutoff)]
      ensures buckets == old(buckets)[Over(old(buckets), cutoff, width)..]
      ensures unique == NamesSince(old(unique), cutoff)
      ensures uniqueOver == (old(uniqueOver) && |unique| >= maxUnique)
    {
      hide Run, Over, NamesRun;
      RunNext(events, Cut(cutoff), width);
      NamesNext(events, Cut(cutoff), maxUnique);
      var i := 0;
      while i < |buckets| && buckets[i].at + width <= cutoff
        invariant 0 <= i <= |buckets| && forall j | 0 <= j < i :: buckets[j].at + width <= cutoff
      {
        i := i + 1;
      }
      OverIs(buckets, cutoff, width, i);
      buckets := buckets[i..];
      events := events + [Cut(cutoff)];
      SubsetCount(NamesSince(unique, cutoff).Keys, unique.Keys);
      DropNames(cutoff);
      if |unique| < maxUnique {
        uniqueOver := false;
      }
    }

    method DropNames(cutoff: Time)
      modifies `unique
      ensures unique == NamesSince(old(unique), cutoff)
    {
      hide Sieving;
      ghost var before, kept := unique, NamesSince(unique, cutoff);
      var todo := unique.Keys;
      SieveStarts(before, kept.Keys);
      while todo != {}
        invariant Sieving(before, unique, todo, kept.Keys)
        decreases |todo|
      {
        var n :| n in todo;
        SieveNext(before, unique, todo, kept.Keys, n);
        if unique[n] < cutoff {
          unique := unique - {n};
        }
        todo := todo - {n};
      }
      SieveEnds(before, unique, kept);
    }

    method TotalsNow() returns (s: Evidence)
      ensures s == Totals(buckets)
    {
      s := NO_EVIDENCE;
      for i := 0 to |buckets|
        invariant s == Totals(buckets[..i])
      {
        assert buckets[..i + 1][..i] == buckets[..i];
        s := Merge(s, buckets[i].evidence);
      }
      assert buckets[..|buckets|] == buckets;
    }

    /** Score the domain once there are enough queries; each axis is a ratio. */
    method Score(minQueries: nat, threshold: real) returns (score: Option<real>, report: bool)
      requires Valid() && minQueries > 0
      ensures score.Some? <==> Totals(buckets).queries >= minQueries
      ensures score.Some? ==> score.value == Suspicion(Totals(buckets), if uniqueOver then Totals(buckets).queries else |unique|)
      ensures report <==> score.Some? && score.value >= threshold
      ensures score.Some? ==> 0.0 <= score.value <= 1.0
    {
      hide Run, Totals, Suspicion;
      var tot := TotalsNow();
      if tot.queries < minQueries {
        return None, false;
      }
      var names := |unique|;
      if uniqueOver {
        names := tot.queries;
      }
      SuspicionInUnit(events, width, names);
      var r := Suspicion(tot, names);
      return Some(r), r >= threshold;
    }
  }

  lemma {:induction false} OverIs(bs: seq<Bucket>, cutoff: Time, width: nat, n: nat)
    requires n <= |bs| && (forall i | 0 <= i < n :: bs[i].at + width <= cutoff) && (n < |bs| ==> bs[n].at + width > cutoff)
    ensures Over(bs, cutoff, width) == n
  {
    if n > 0 {
      OverIs(bs[1..], cutoff, width, n - 1);
    }
  }

  /** Four weighted axes; more names than queries count as every query its own name. */
  function Suspicion(tot: Evidence, names: nat): real
    requires tot.queries > 0
  {
    var q := tot.queries as real;
    0.35 * (Min(names, tot.queries) as real / q) + 0.25 * Normalize(tot.subLenSum as real / q, 15.0, 50.0)
    + 0.25 * Normalize(tot.entropySum / q, 3.2, 4.6) + 0.15 * (tot.highSignal as real / q)
  }

  /** An axis, against as many queries: linear between its ends, which are as many times the limits. */
  lemma AxisReads(x: real, q: real, lo: real, hi: real)
    requires q > 0.0 && lo < hi
    ensures (hi - lo) * Times(q, Normalize(x / q, lo, hi)) == Clamp(x, Times(q, lo), Times(q, hi)) - Times(q, lo)
  {
    hide Normalize;
    var a := x / q;
    assert Times(q, a) == x;
    ScaleOrder(q, a, lo);
    ScaleOrder(q, hi, a);
    ScaleOrder(q, lo, hi);
    if lo < a < hi {
      NormalizeBetween(a, lo, hi);
      Spread(q, Normalize(a, lo, hi), a, lo, hi);
    } else {
      AxisEnds(q, lo, hi);
    }
  }

  lemma AxisEnds(q: real, lo: real, hi: real)
    ensures Times(q, 0.0) == 0.0 && (hi - lo) * Times(q, 1.0) == Times(q, hi) - Times(q, lo)
  {
  }

  lemma Spread(q: real, r: real, a: real, lo: real, hi: real)
    requires r * (hi - lo) == a - lo
    ensures (hi - lo) * Times(q, r) == Times(q, a) - Times(q, lo)
  {
    assert (hi - lo) * (q * r) == q * (r * (hi - lo));
    assert q * (a - lo) == q * a - q * lo;
  }

  /**
   The score, for `q` queries 140 times over: 49 for each name never repeated, one for each byte of subdomain
   from 15 to 50 a query, 25 for each bit of entropy from 3.2 to 4.6 a query, and 21 for each telling type.
   */
  lemma SuspicionReads(tot: Evidence, names: nat)
    requires tot.queries > 0
    ensures var q := tot.queries as real;
            140.0 * Times(q, Suspicion(tot, names))
            == 49.0 * Min(names, tot.queries) as real
               + (Clamp(tot.subLenSum as real, 15.0 * q, 50.0 * q) - 15.0 * q)
               + 25.0 * (Clamp(tot.entropySum, 3.2 * q, 4.6 * q) - 3.2 * q)
               + 21.0 * tot.highSignal as real
  {
    hide Normalize, Clamp, Times, Min;
    var q, n, h := tot.queries as real, Min(names, tot.queries) as real, tot.highSignal as real;
    var l, e := tot.subLenSum as real, tot.entropySum;
    AxisReads(l, q, 15.0, 50.0);
    AxisReads(e, q, 3.2, 4.6);
    TimesIs(q);
    Weighed(q, n, Normalize(l / q, 15.0, 50.0), Normalize(e / q, 3.2, 4.6), h);
  }

  lemma TimesIs(q: real)
    ensures Times(q, 15.0) == 15.0 * q && Times(q, 50.0) == 50.0 * q && Times(q, 3.2) == 3.2 * q
    ensures Times(q, 4.6) == 4.6 * q
  {
  }

  lemma Weighed(q: real, n: real, l: real, e: real, h: real)
    requires q > 0.0
    ensures Times(q, 0.35 * (n / q) + 0.25 * l + 0.25 * e + 0.15 * (h / q)) == 0.35 * n + 0.25 * Times(q, l) + 0.25 * Times(q, e) + 0.15 * h
  {
    assert q * (n / q) == n && q * (h / q) == h;
  }

  lemma {:induction false} HighSignalWithin(qs: seq<Query>)
    ensures EvidenceOf(qs).highSignal <= EvidenceOf(qs).queries
  {
    if qs != [] {
      HighSignalWithin(qs[..|qs| - 1]);
    }
  }

  /** On every run the score lies in the unit interval, however many names outlive their queries. */
  lemma SuspicionInUnit(es: seq<DnsEvent>, width: nat, names: nat)
    requires width > 0 && Totals(Run(es, width)).queries > 0
    ensures 0.0 <= Suspicion(Totals(Run(es, width)), names) <= 1.0
  {
    WindowIsSuffix(es, width);
    var tot := Totals(Run(es, width));
    HighSignalWithin(Log(es)[|Log(es)| - tot.queries..]);
    hide Run, Totals, Log, EvidenceOf, Normalize;
    Quotient(Min(names, tot.queries) as real, tot.queries as real);
    Quotient(tot.highSignal as real, tot.queries as real);
  }
}
