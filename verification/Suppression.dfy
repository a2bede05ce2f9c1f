/**
 Which alerts reach the output: restatements are suppressed, escalations are not, and the memory
 this takes is bounded by dropping the findings least recently seen.
 */
module Suppression {
  import opened Bytes
  import opened Collections
  import opened Flows
  import opened Sorting

  /** What makes two alerts the same finding. */
  datatype FindingKey = FindingKey(detector: Octets, rule: Octets, src: Addr, dst: Addr, dstPort: Uint16)

  datatype Alert = Alert(key: FindingKey, time: Time, severity: nat, digest: Uint64)

  /** The latest publication of a finding, and the latest time it came up. */
  datatype AlertState = AlertState(at: Time, touched: Time, severity: nat, digest: Uint64)

  function Said(a: Alert): AlertState { AlertState(a.time, a.time, a.severity, a.digest) }

  /** Nothing new, or too soon. */
  predicate Repeats(prev: AlertState, a: Alert, cooldown: nat) {
    prev.digest == a.digest || (a.severity <= prev.severity && a.time - prev.at < cooldown)
  }

  function Touched(s: AlertState, at: Time): AlertState {
    if at > s.touched then s.(touched := at) else s
  }

  // --- the quartile ---

  function TouchedBefore(m: map<FindingKey, AlertState>, c: Time): set<FindingKey> {
    set k | k in m && m[k].touched < c
  }

  function TouchedBy(m: map<FindingKey, AlertState>, c: Time): set<FindingKey> {
    set k | k in m && m[k].touched <= c
  }

  /** At most a quarter of the entries were touched before this time, and more than a quarter by it. */
  predicate IsQuartile(m: map<FindingKey, AlertState>, c: Time) {
    |TouchedBefore(m, c)| <= |m| / 4 < |TouchedBy(m, c)|
  }

  function Since(m: map<FindingKey, AlertState>, c: Time): map<FindingKey, AlertState> {
    map k | k in m && m[k].touched >= c :: m[k]
  }

  /** The cut drops only entries touched strictly before it, at most a quarter of them, and keeps the rest as they are. */
  lemma CutDropsAQuarter(m: map<FindingKey, AlertState>, c: Time)
    requires IsQuartile(m, c)
    ensures Since(m, c).Keys == m.Keys - TouchedBefore(m, c)
    ensures |Since(m, c)| == |m| - |TouchedBefore(m, c)| >= |m| - |m| / 4
  {
    var gone := TouchedBefore(m, c);
    assert Since(m, c).Keys == m.Keys - gone && gone <= m.Keys;
    assert |m.Keys| == |m.Keys - gone| + |gone|;
  }

  /** No two findings were last touched at the same time. */
  ghost predicate DistinctTouches(m: map<FindingKey, AlertState>) {
    forall k, l | k in m && l in m && k != l :: m[k].touched != m[l].touched
  }

  /** Between the two counts there is only one quartile. */
  lemma QuartileUnique(m: map<FindingKey, AlertState>, c: Time, d: Time)
    requires IsQuartile(m, c) && IsQuartile(m, d)
    ensures c == d
  {
    if c < d {
      SubsetCount(TouchedBy(m, c), TouchedBefore(m, d));
    } else if d < c {
      SubsetCount(TouchedBy(m, d), TouchedBefore(m, c));
    }
  }

  /** At or before some time, at least one entry was touched but at most a quarter of them. */
  ghost predicate SomeAreOld(m: map<FindingKey, AlertState>) {
    exists t :: 0 < |TouchedBy(m, t)| <= |m| / 4
  }

  /** The cut drops anything at all exactly when some entries, at most a quarter, are older than the rest. */
  lemma CutDropsIff(m: map<FindingKey, AlertState>, c: Time)
    requires IsQuartile(m, c)
    ensures |Since(m, c)| < |m| <==> SomeAreOld(m)
  {
    CutDropsAQuarter(m, c);
    if TouchedBefore(m, c) != {} {
      assert TouchedBefore(m, c) == TouchedBy(m, c - 1);
    }
    if t :| 0 < |TouchedBy(m, t)| <= |m| / 4 {
      if t >= c {
        SubsetCount(TouchedBy(m, c), TouchedBy(m, t));
      } else {
        SubsetCount(TouchedBy(m, t), TouchedBefore(m, c));
      }
    }
  }

  /** At or before some time, at least `n` entries were touched but at most a quarter of them. */
  ghost predicate EnoughAreOld(m: map<FindingKey, AlertState>, n: int) {
    exists t :: n <= |TouchedBy(m, t)| <= |m| / 4
  }

  /**
   However far over its cap, the map returns to it exactly when enough entries, at most a quarter,
   are older than the rest.
   */
  lemma CapKeptIff(m: map<FindingKey, AlertState>, c: Time, cap: nat)
    requires IsQuartile(m, c) && |m| > cap
    ensures |Since(m, c)| <= cap <==> EnoughAreOld(m, |m| - cap)
  {
    CutDropsAQuarter(m, c);
    assert TouchedBefore(m, c) == TouchedBy(m, c - 1);
    if t :| |m| - cap <= |TouchedBy(m, t)| <= |m| / 4 {
      if t >= c {
        SubsetCount(TouchedBy(m, c), TouchedBy(m, t));
      } else {
        SubsetCount(TouchedBy(m, t), TouchedBefore(m, c));
      }
    }
  }

  /** With distinct touch times the cut drops exactly a quarter. */
  lemma DistinctCut(m: map<FindingKey, AlertState>, c: Time)
    requires IsQuartile(m, c) && DistinctTouches(m)
    ensures |Since(m, c)| == |m| - |m| / 4
  {
    CutDropsAQuarter(m, c);
    var now := TouchedBy(m, c) - TouchedBefore(m, c);
    forall k, l | k in now && l in now ensures k == l {
      assert m[k].touched == c && m[l].touched == c;
    }
    OnlyOne(now);
    assert TouchedBy(m, c) == TouchedBefore(m, c) + now;
  }

  lemma OnlyOne<T>(s: set<T>)
    requires forall x, y | x in s && y in s :: x == y
    ensures |s| <= 1
  {
    if s != {} {
      var x :| x in s;
      assert s == {x};
    }
  }

  /** When every entry was touched at the same time the cut drops nothing, whatever the cap. */
  lemma TiesDropNothing(m: map<FindingKey, AlertState>, t: Time)
    requires m != map[] && forall k | k in m :: m[k].touched == t
    ensures IsQuartile(m, t) && Since(m, t) == m && !SomeAreOld(m)
  {
    assert TouchedBefore(m, t) == {} && TouchedBy(m, t) == m.Keys;
    forall u ensures !(0 < |TouchedBy(m, u)| <= |m| / 4) {
      if u >= t {
        assert TouchedBy(m, u) == m.Keys;
      } else {
        assert TouchedBy(m, u) == {};
      }
    }
  }

  // --- finding the quartile by sorting ---

  function CountBefore(ts: seq<Time>, c: Time): nat {
    if ts == [] then 0 else CountBefore(ts[1..], c) + if ts[0] < c then 1 else 0
  }

  lemma {:induction false} CountBeforeSplit(a: seq<Time>, b: seq<Time>, c: Time)
    ensures CountBefore(a + b, c) == CountBefore(a, c) + CountBefore(b, c)
  {
    if a == [] {
      assert a + b == b;
    } else {
      CountBeforeSplit(a[1..], b, c);
      assert (a + b)[1..] == a[1..] + b;
    }
  }

  lemma CountWithout(s: seq<Time>, j: nat, c: Time)
    requires j < |s|
    ensures CountBefore(s, c) == CountBefore(Remove(s, j), c) + if s[j] < c then 1 else 0
  {
    var a, x, b := s[..j], [s[j]], s[j + 1..];
    assert s == a + (x + b);
    CountBeforeSplit(a, x + b, c);
    CountBeforeSplit(x, b, c);
    CountBeforeSplit(a, b, c);
    assert x[1..] == [];
  }

  lemma {:induction false} CountBeforePermuted(a: seq<Time>, b: seq<Time>, c: Time)
    requires multiset(a) == multiset(b)
    ensures CountBefore(a, c) == CountBefore(b, c)
    decreases |a|
  {
    hide CountBefore;
    SameLength(a, b);
    if a == [] {
      assert b == [];
    } else {
      assert a[0] in multiset(b);
      var j :| 0 <= j < |b| && b[j] == a[0];
      RemoveMultiset(a, 0);
      RemoveMultiset(b, j);
      CountWithout(a, 0, c);
      CountWithout(b, j, c);
      CountBeforePermuted(Remove(a, 0), Remove(b, j), c);
    }
  }

  lemma {:induction false} CountAtMost(ts: seq<Time>, c: Time)
    ensures CountBefore(ts, c) <= |ts|
  {
    if ts != [] {
      CountAtMost(ts[1..], c);
    }
  }

  lemma {:induction false} CountNone(ts: seq<Time>, c: Time)
    requires forall i | 0 <= i < |ts| :: ts[i] >= c
    ensures CountBefore(ts, c) == 0
  {
    if ts != [] {
      CountNone(ts[1..], c);
    }
  }

  lemma {:induction false} CountAll(ts: seq<Time>, c: Time)
    requires forall i | 0 <= i < |ts| :: ts[i] < c
    ensures CountBefore(ts, c) == |ts|
  {
    if ts != [] {
      CountAll(ts[1..], c);
    }
  }

  lemma SortedTimes(s: seq<Time>, k: nat, n: nat)
    requires SortedBy(s, IntKey) && k < |s| && n == k + 1
    ensures forall i | 0 <= i < |s| - k :: s[k..][i] >= s[k]
    ensures forall i | 0 <= i < n :: s[..n][i] <= s[k]
  {
    forall i, j | 0 <= i < j < |s| ensures s[i] <= s[j] {
      assert IntKey(s[i]) <= IntKey(s[j]);
    }
  }

  /** In sorted order, at most `k` times are before the one at `k`, and more than `k` are before the next instant. */
  lemma SortedRank(s: seq<Time>, k: nat)
    requires SortedBy(s, IntKey) && k < |s|
    ensures CountBefore(s, s[k]) <= k < CountBefore(s, s[k] + 1)
  {
    hide CountBefore, SortedBy;
    var c := s[k];
    var low, high, init, rest := s[..k], s[k..], s[..k + 1], s[k + 1..];
    assert s == low + high && s == init + rest;
    SortedTimes(s, k, k + 1);
    CountAtMost(low, c);
    CountNone(high, c);
    CountAll(init, c + 1);
    CountBeforeSplit(low, high, c);
    CountBeforeSplit(init, rest, c + 1);
  }

  function OldAmong(m: map<FindingKey, AlertState>, keys: set<FindingKey>, c: Time): set<FindingKey> {
    set k | k in keys && k in m && m[k].touched < c
  }

  /** The touch times of these entries, in some order. */
  ghost predicate TimesOf(ts: seq<Time>, m: map<FindingKey, AlertState>, keys: set<FindingKey>) {
    |ts| == |keys| && forall c :: CountBefore(ts, c) == |OldAmong(m, keys, c)|
  }

  lemma TimesOfOne(ts: seq<Time>, m: map<FindingKey, AlertState>, keys: set<FindingKey>, k: FindingKey)
    requires TimesOf(ts, m, keys) && k in m && k !in keys
    ensures TimesOf(ts + [m[k].touched], m, keys + {k})
  {
    hide CountBefore, OldAmong;
    var t := m[k].touched;
    forall c ensures CountBefore(ts + [t], c) == |OldAmong(m, keys + {k}, c)| {
      CountBeforeLast(ts, t, c);
      OldAmongOne(m, keys, k, c);
    }
  }

  lemma CountBeforeLast(ts: seq<Time>, t: Time, c: Time)
    ensures CountBefore(ts + [t], c) == CountBefore(ts, c) + if t < c then 1 else 0
  {
    CountBeforeSplit(ts, [t], c);
    assert [t][1..] == [];
  }

  lemma OldAmongOne(m: map<FindingKey, AlertState>, keys: set<FindingKey>, k: FindingKey, c: Time)
    requires k in m && k !in keys
    ensures |OldAmong(m, keys + {k}, c)| == |OldAmong(m, keys, c)| + if m[k].touched < c then 1 else 0
  {
    assert OldAmong(m, keys + {k}, c) == if m[k].touched < c then OldAmong(m, keys, c) + {k} else OldAmong(m, keys, c);
  }

  lemma TimesOfNone(m: map<FindingKey, AlertState>)
    ensures TimesOf([], m, {})
  {
    forall c ensures OldAmong(m, {}, c) == {} {
    }
  }

  lemma SortedQuartile(ts: seq<Time>, m: map<FindingKey, AlertState>)
    requires TimesOf(ts, m, m.Keys) && m != map[]
    ensures |m| / 4 < |Sort(ts, IntKey)| && IsQuartile(m, Sort(ts, IntKey)[|m| / 4])
  {
    hide CountBefore, Sort;
    var s := Sort(ts, IntKey);
    var c := s[|m| / 4];
    SortSorts(ts, IntKey);
    SortedRank(s, |m| / 4);
    CountBeforePermuted(ts, s, c);
    CountBeforePermuted(ts, s, c + 1);
    assert TouchedBefore(m, c) == OldAmong(m, m.Keys, c);
    assert TouchedBy(m, c) == OldAmong(m, m.Keys, c + 1);
  }
}
