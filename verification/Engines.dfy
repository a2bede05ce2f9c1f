/**
 The engine's output: every alert offered is filtered by policy, suppressed or published, and what
 is published again about one finding is news. `log` remembers what was published and dropped.
 */
module Engines {
  import opened Bytes
  import opened Collections
  import opened Flows
  import opened Sorting
  import opened Suppression

  /** What happened to a finding, in order. */
  datatype Entry = Published(alert: Alert) | Dropped(keys: set<FindingKey>)

  predicate Concerns(e: Entry, k: FindingKey) {
    match e
    case Published(a) => a.key == k
    case Dropped(keys) => k in keys
  }

  /** The latest publication of a finding, unless the finding was dropped later. */
  function LastSaid(log: seq<Entry>, k: FindingKey): Option<Alert> {
    if log == [] then None
    else
      var e := log[|log| - 1];
      if Concerns(e, k) then (if e.Published? then Some(e.alert) else None)
      else LastSaid(log[..|log| - 1], k)
  }

  /** The map recalls exactly the latest publication of each finding not dropped later. */
  ghost predicate Remembers(m: map<FindingKey, AlertState>, log: seq<Entry>) {
    forall k ::
      && (k in m <==> LastSaid(log, k).Some?)
      && (k in m ==> Recalls(m[k], LastSaid(log, k).value))
  }

  predicate Recalls(s: AlertState, a: Alert) {
    s.at == a.time && s.severity == a.severity && s.digest == a.digest && s.touched >= s.at
  }

  /** A later alert about the same finding says something new, and is graver or not too soon. */
  predicate IsNews(earlier: Alert, later: Alert, cooldown: nat) {
    later.digest != earlier.digest && (later.severity > earlier.severity || later.time - earlier.time >= cooldown)
  }

  /** These two are consecutive publications of one finding, not dropped in between. */
  ghost predicate Consecutive(log: seq<Entry>, i: int, j: int) {
    && 0 <= i < j < |log| && log[i].Published? && log[j].Published? && log[i].alert.key == log[j].alert.key
    && forall n | i < n < j :: !Concerns(log[n], log[i].alert.key)
  }

  ghost predicate AllNews(log: seq<Entry>, cooldown: nat) {
    forall i, j | Consecutive(log, i, j) :: IsNews(log[i].alert, log[j].alert, cooldown)
  }

  lemma {:induction false} LastSaidIs(log: seq<Entry>, i: nat, k: FindingKey)
    requires i < |log| && log[i].Published? && log[i].alert.key == k
    requires forall n | i < n < |log| :: !Concerns(log[n], k)
    ensures LastSaid(log, k) == Some(log[i].alert)
    decreases |log|
  {
    if i < |log| - 1 {
      LastSaidIs(log[..|log| - 1], i, k);
    }
  }

  lemma LastSaidNext(log: seq<Entry>, e: Entry, k: FindingKey)
    ensures LastSaid(log + [e], k) == if !Concerns(e, k) then LastSaid(log, k) else if e.Published? then Some(e.alert) else None
  {
    assert (log + [e])[..|log|] == log;
  }

  /** What is remembered of a finding repeats an alert exactly when the alert is no news after what was last said of it. */
  lemma RepeatsNoNews(m: map<FindingKey, AlertState>, log: seq<Entry>, a: Alert, cooldown: nat)
    requires Remembers(m, log)
    ensures a.key in m && Repeats(m[a.key], a, cooldown)
            <==> LastSaid(log, a.key).Some? && !IsNews(LastSaid(log, a.key).value, a, cooldown)
  {
    hide LastSaid;
  }

  /** Publishing an alert that repeats nothing keeps every publication news. */
  lemma PublishNews(m: map<FindingKey, AlertState>, log: seq<Entry>, a: Alert, cooldown: nat)
    requires Remembers(m, log) && AllNews(log, cooldown) && (a.key in m ==> !Repeats(m[a.key], a, cooldown))
    ensures AllNews(log + [Published(a)], cooldown)
  {
    var after := log + [Published(a)];
    forall i, j | Consecutive(after, i, j) ensures IsNews(after[i].alert, after[j].alert, cooldown) {
      if j < |log| {
        assert Consecutive(log, i, j) by {
          assert forall n | i < n < j :: after[n] == log[n];
        }
      } else {
        forall n | i < n < |log| ensures !Concerns(log[n], a.key) {
          assert after[n] == log[n];
        }
        LastSaidIs(log, i, a.key);
      }
    }
  }

  lemma DropNews(log: seq<Entry>, keys: set<FindingKey>, cooldown: nat)
    requires AllNews(log, cooldown)
    ensures AllNews(log + [Dropped(keys)], cooldown)
  {
    var after := log + [Dropped(keys)];
    forall i, j | Consecutive(after, i, j) ensures IsNews(after[i].alert, after[j].alert, cooldown) {
      assert Consecutive(log, i, j) by {
        assert forall n | i < n < j :: after[n] == log[n];
      }
    }
  }

  lemma PublishRemembers(m: map<FindingKey, AlertState>, log: seq<Entry>, a: Alert)
    requires Remembers(m, log)
    ensures Remembers(m[a.key := Said(a)], log + [Published(a)])
  {
    hide LastSaid;
    forall k ensures LastSaid(log + [Published(a)], k) == if k == a.key then Some(a) else LastSaid(log, k) {
      LastSaidNext(log, Published(a), k);
    }
  }

  lemma DropRemembers(m: map<FindingKey, AlertState>, log: seq<Entry>, c: Time)
    requires Remembers(m, log)
    ensures Remembers(Since(m, c), log + [Dropped(TouchedBefore(m, c))])
  {
    hide LastSaid, Recalls;
    var keys := TouchedBefore(m, c);
    forall k ensures LastSaid(log + [Dropped(keys)], k) == if k in keys then None else LastSaid(log, k) {
      LastSaidNext(log, Dropped(keys), k);
    }
  }

  lemma TouchRemembers(m: map<FindingKey, AlertState>, log: seq<Entry>, k: FindingKey, at: Time)
    requires Remembers(m, log) && k in m
    ensures Remembers(m[k := Touched(m[k], at)], log)
  {
    hide LastSaid;
  }

  function Publications(log: seq<Entry>): nat {
    if log == [] then 0 else Publications(log[..|log| - 1]) + if log[|log| - 1].Published? then 1 else 0
  }

  lemma PublicationsNext(log: seq<Entry>, e: Entry)
    ensures Publications(log + [e]) == Publications(log) + if e.Published? then 1 else 0
  {
    assert (log + [e])[..|log|] == log;
  }

  // --- the memory over whole runs ---

  /** What a report leaves of the memory. */
  ghost predicate AfterReport(before: map<FindingKey, AlertState>, a: Alert, cap: nat, after: map<FindingKey, AlertState>) {
    var m := before[a.key := Said(a)];
    if |m| <= cap then after == m else exists c :: IsQuartile(m, c) && after == Since(m, c)
  }

  /** What an alert that policy lets through leaves of the memory. */
  ghost predicate AfterAlert(before: map<FindingKey, AlertState>, a: Alert, cooldown: nat, cap: nat, after: map<FindingKey, AlertState>) {
    if a.key in before && Repeats(before[a.key], a, cooldown)
    then after == before[a.key := Touched(before[a.key], a.time)]
    else AfterReport(before, a, cap, after)
  }

  /** These alerts, in order, lead from an empty memory to this one. */
  ghost predicate Reaches(alerts: seq<Alert>, cooldown: nat, cap: nat, m: map<FindingKey, AlertState>)
    decreases |alerts|, 0
  {
    if alerts == [] then m == map[]
    else ReachesBy(alerts[..|alerts| - 1], alerts[|alerts| - 1], cooldown, cap, m)
  }

  ghost predicate ReachesBy(earlier: seq<Alert>, a: Alert, cooldown: nat, cap: nat, m: map<FindingKey, AlertState>)
    decreases |earlier|, 1
  {
    exists before :: Reaches(earlier, cooldown, cap, before) && AfterAlert(before, a, cooldown, cap, m)
  }

  lemma ReachesNext(alerts: seq<Alert>, cooldown: nat, cap: nat, before: map<FindingKey, AlertState>, a: Alert,
                    after: map<FindingKey, AlertState>)
    requires Reaches(alerts, cooldown, cap, before) && AfterAlert(before, a, cooldown, cap, after)
    ensures Reaches(alerts + [a], cooldown, cap, after)
  {
    hide AfterAlert;
    assert (alerts + [a])[..|alerts|] == alerts;
  }

  /**
   From any memory, however far over its cap, a report leaves it within the cap exactly when it fits,
   or when enough of its entries, at most a quarter, are older than the rest.
   */
  lemma ReportKeepsCap(before: map<FindingKey, AlertState>, a: Alert, cap: nat, after: map<FindingKey, AlertState>)
    requires AfterReport(before, a, cap, after)
    ensures var m := before[a.key := Said(a)];
            |after| <= cap <==> |m| <= cap || EnoughAreOld(m, |m| - cap)
  {
    hide IsQuartile, EnoughAreOld, Since;
    var m := before[a.key := Said(a)];
    if |m| > cap {
      var c :| IsQuartile(m, c) && after == Since(m, c);
      CapKeptIff(m, c, cap);
    }
  }

  ghost predicate DistinctTimes(alerts: seq<Alert>) {
    forall i, j | 0 <= i < j < |alerts| :: alerts[i].time != alerts[j].time
  }

  ghost predicate CameAt(alerts: seq<Alert>, t: Time) { exists i :: 0 <= i < |alerts| && alerts[i].time == t }

  /** Every touch time is that of an alert, and no two entries share one. */
  ghost predicate TouchedByAlerts(m: map<FindingKey, AlertState>, alerts: seq<Alert>) {
    DistinctTouches(m) && forall k | k in m :: CameAt(alerts, m[k].touched)
  }

  lemma TouchDistinct(m: map<FindingKey, AlertState>, alerts: seq<Alert>, a: Alert, s: AlertState)
    requires TouchedByAlerts(m, alerts) && DistinctTimes(alerts + [a])
    requires s.touched == a.time || (a.key in m && s.touched == m[a.key].touched)
    ensures TouchedByAlerts(m[a.key := s], alerts + [a])
  {
    var all, after := alerts + [a], m[a.key := s];
    forall t | CameAt(alerts, t) ensures CameAt(all, t) && t != a.time {
      var i :| 0 <= i < |alerts| && alerts[i].time == t;
      assert all[i] == alerts[i] && all[|alerts|] == a;
    }
    assert all[|alerts|] == a;
    hide CameAt;
    forall k | k in after ensures CameAt(all, after[k].touched) {
      assert CameAt(all, a.time) by {
        CameLast(alerts, a);
      }
    }
  }

  lemma CameLast(alerts: seq<Alert>, a: Alert)
    ensures CameAt(alerts + [a], a.time)
  {
    assert (alerts + [a])[|alerts|] == a;
  }

  lemma SinceDistinct(m: map<FindingKey, AlertState>, alerts: seq<Alert>, c: Time)
    requires TouchedByAlerts(m, alerts)
    ensures TouchedByAlerts(Since(m, c), alerts)
  {
    hide CameAt;
  }

  lemma ReportWithinCap(before: map<FindingKey, AlertState>, alerts: seq<Alert>, a: Alert, cap: nat,
                        after: map<FindingKey, AlertState>)
    requires AfterReport(before, a, cap, after) && cap >= 3 && |before| <= cap
    requires TouchedByAlerts(before, alerts) && DistinctTimes(alerts + [a])
    ensures |after| <= cap && TouchedByAlerts(after, alerts + [a])
  {
    var m := before[a.key := Said(a)];
    TouchDistinct(before, alerts, a, Said(a));
    Grows(before, a.key, Said(a));
    assert DistinctTouches(m);
    hide IsQuartile, Since, TouchedByAlerts, DistinctTouches, DistinctTimes;
    if |m| > cap {
      var c :| IsQuartile(m, c) && after == Since(m, c);
      DistinctCut(m, c);
      SinceDistinct(m, alerts + [a], c);
    }
  }

  lemma AlertWithinCap(before: map<FindingKey, AlertState>, alerts: seq<Alert>, a: Alert, cooldown: nat, cap: nat,
                       after: map<FindingKey, AlertState>)
    requires AfterAlert(before, a, cooldown, cap, after) && cap >= 3 && |before| <= cap
    requires TouchedByAlerts(before, alerts) && DistinctTimes(alerts + [a])
    ensures |after| <= cap && TouchedByAlerts(after, alerts + [a])
  {
    hide TouchedByAlerts, DistinctTimes, AfterReport, Repeats;
    if a.key in before && Repeats(before[a.key], a, cooldown) {
      TouchDistinct(before, alerts, a, Touched(before[a.key], a.time));
      Grows(before, a.key, Touched(before[a.key], a.time));
    } else {
      ReportWithinCap(before, alerts, a, cap, after);
    }
  }

  /**
   Over any run of alerts at distinct times, with a cap of at least three, the memory never exceeds
   its cap; its touch times stay distinct, each that of an alert.
   */
  lemma {:induction false} CapHolds(alerts: seq<Alert>, cooldown: nat, cap: nat, m: map<FindingKey, AlertState>)
    requires Reaches(alerts, cooldown, cap, m) && cap >= 3 && DistinctTimes(alerts)
    ensures |m| <= cap && TouchedByAlerts(m, alerts)
    decreases |alerts|
  {
    if alerts != [] {
      var earlier, a := alerts[..|alerts| - 1], alerts[|alerts| - 1];
      assert alerts == earlier + [a];
      hide AfterAlert, TouchedByAlerts;
      var before :| Reaches(earlier, cooldown, cap, before) && AfterAlert(before, a, cooldown, cap, m);
      CapHolds(earlier, cooldown, cap, before);
      AlertWithinCap(before, earlier, a, cooldown, cap, m);
    }
  }

  // --- ties defeat the cap ---

  /** The `i`th of several findings made at one instant. */
  function Tied(i: nat, t: Time): Alert { Alert(FindingKey([], [], 0, i, 0), t, 0, 0) }

  function Volley(n: nat, t: Time): seq<Alert> { if n == 0 then [] else Volley(n - 1, t) + [Tied(n - 1, t)] }

  function Held(n: nat, t: Time): map<FindingKey, AlertState> {
    if n == 0 then map[] else Held(n - 1, t)[Tied(n - 1, t).key := Said(Tied(n - 1, t))]
  }

  lemma {:induction false} HeldAll(n: nat, t: Time)
    ensures |Held(n, t)| == n
    ensures forall k | k in Held(n, t) :: Held(n, t)[k].touched == t && k.dst < n
  {
    if n > 0 {
      HeldAll(n - 1, t);
      Grows(Held(n - 1, t), Tied(n - 1, t).key, Said(Tied(n - 1, t)));
    }
  }

  /** One more finding at the same instant is kept, whatever the cap. */
  lemma HeldNext(n: nat, t: Time, cap: nat, after: map<FindingKey, AlertState>)
    ensures Tied(n, t).key !in Held(n, t)
    ensures AfterReport(Held(n, t), Tied(n, t), cap, after) <==> after == Held(n + 1, t)
  {
    HeldAll(n, t);
    HeldAll(n + 1, t);
    TiesDropNothing(Held(n + 1, t), t);
    OnlyQuartile(Held(n + 1, t), t);
    hide IsQuartile, Since;
  }

  lemma OnlyQuartile(m: map<FindingKey, AlertState>, t: Time)
    requires IsQuartile(m, t)
    ensures forall c :: IsQuartile(m, c) ==> c == t
  {
    hide IsQuartile;
    forall c | IsQuartile(m, c) ensures c == t {
      QuartileUnique(m, c, t);
    }
  }

  lemma NothingReached(t: Time, cooldown: nat, cap: nat)
    ensures Reaches([], cooldown, cap, Held(0, t))
  {
  }

  lemma HeldAfter(n: nat, t: Time, cooldown: nat, cap: nat)
    ensures AfterAlert(Held(n, t), Tied(n, t), cooldown, cap, Held(n + 1, t))
  {
    hide AfterReport, Held;
    HeldNext(n, t, cap, Held(n + 1, t));
  }

  /** Any number of findings at one instant leads to a memory that holds them all, whatever the cap. */
  lemma {:induction false} CapExceeded(n: nat, t: Time, cooldown: nat, cap: nat)
    ensures Reaches(Volley(n, t), cooldown, cap, Held(n, t)) && |Held(n, t)| == n
  {
    hide AfterAlert, Held, Reaches;
    HeldAll(n, t);
    if n == 0 {
      NothingReached(t, cooldown, cap);
    } else {
      CapExceeded(n - 1, t, cooldown, cap);
      HeldAfter(n - 1, t, cooldown, cap);
      ReachesNext(Volley(n - 1, t), cooldown, cap, Held(n - 1, t), Tied(n - 1, t), Held(n, t));
    }
  }

  /** Every alert offered is filtered, suppressed or published. */
  datatype Outcome = Filtered | Suppressed | Reported

  class Engine {
    const policy: Alert -> Option<Alert>
    const cooldown: nat
    const maxEntries: nat

    var lastSeen: map<FindingKey, AlertState>
    var emitted: nat
    var suppressed: nat
    var filtered: nat
    var dropped: nat

    ghost var calls: nat
    ghost var log: seq<Entry>
    ghost var allowed: seq<Alert> // what policy let through

    /** The memory is that of the log and of the alerts let through, and all publications are news. */
    ghost predicate Sound()
      reads `lastSeen, `log, `allowed, `emitted
    {
      && Remembers(lastSeen, log) && AllNews(log, cooldown)
      && Reaches(allowed, cooldown, maxEntries, lastSeen) && emitted == Publications(log)
    }

    ghost predicate Valid()
      reads this
    {
      Sound() && emitted + suppressed + filtered == calls
    }

    constructor (policy: Alert -> Option<Alert>, cooldown: nat, maxEntries: nat)
      ensures Valid() && lastSeen == map[] && log == [] && allowed == [] && calls == 0 && dropped == 0
      ensures this.policy == policy && this.cooldown == cooldown && this.maxEntries == maxEntries
    {
      this.policy, this.cooldown, this.maxEntries := policy, cooldown, maxEntries;
      lastSeen, emitted, suppressed, filtered, dropped := map[], 0, 0, 0, 0;
      calls, log, allowed := 0, [], [];
    }

    /** The touch times, sorted; the one a quarter of the way up. */
    method Quartile() returns (c: Time)
      requires lastSeen != map[]
      ensures IsQuartile(lastSeen, c)
    {
      hide TimesOf;
      var times := [];
      var todo := lastSeen.Keys;
      ghost var done: set<FindingKey> := {};
      TimesOfNone(lastSeen);
      while todo != {}
        invariant done + todo == lastSeen.Keys && done !! todo && TimesOf(times, lastSeen, done)
        decreases |todo|
      {
        var k :| k in todo;
        TimesOfOne(times, lastSeen, done, k);
        times := times + [lastSeen[k].touched];
        todo, done := todo - {k}, done + {k};
      }
      assert done == lastSeen.Keys;
      SortedQuartile(times, lastSeen);
      return Sort(times, IntKey)[|lastSeen| / 4];
    }

    /**
     Over the cap, drop what was touched before the lower quartile: how much that is, and whether it
     is enough, is `CutDropsAQuarter` and `CapKeptIff`.
     */
    method BoundSuppression() returns (ghost cut: Option<Time>)
      requires Remembers(lastSeen, log) && AllNews(log, cooldown)
      modifies this`lastSeen, this`dropped, this`log
      ensures Remembers(lastSeen, log) && AllNews(log, cooldown) && Publications(log) == Publications(old(log))
      ensures cut.Some? <==> |old(lastSeen)| > maxEntries
      ensures cut.None? ==> lastSeen == old(lastSeen) && log == old(log) && dropped == old(dropped)
      ensures cut.Some? ==>
                && IsQuartile(old(lastSeen), cut.value) && lastSeen == Since(old(lastSeen), cut.value)
                && log == old(log) + [Dropped(TouchedBefore(old(lastSeen), cut.value))]
                && dropped == old(dropped) + |old(lastSeen)| - |lastSeen|
    {
      hide Remembers, AllNews, Sieving, IsQuartile, TouchedBefore, Publications;
      if |lastSeen| <= maxEntries {
        return None;
      }
      var c := Quartile();
      ghost var before := lastSeen;
      DropRemembers(before, log, c);
      DropNews(log, TouchedBefore(before, c), cooldown);
      PublicationsNext(log, Dropped(TouchedBefore(before, c)));
      ghost var kept := Since(before, c);
      SieveStarts(before, kept.Keys);
      var todo := lastSeen.Keys;
      while todo != {}
        invariant log == old(log) && Sieving(before, lastSeen, todo, kept.Keys)
        invariant dropped == old(dropped) + |before| - |lastSeen|
        decreases |todo|
      {
        var k :| k in todo;
        SieveNext(before, lastSeen, todo, kept.Keys, k);
        Shrinks(lastSeen, k);
        if lastSeen[k].touched < c {
          lastSeen := lastSeen - {k};
          dropped := dropped + 1;
        }
        todo := todo - {k};
      }
      SieveEnds(before, lastSeen, kept);
      log := log + [Dropped(TouchedBefore(before, c))];
      cut := Some(c);
    }

    /** Move the touch time of a suppressed finding forward. */
    method Touch(key: FindingKey, s: AlertState, at: Time)
      requires key in lastSeen && lastSeen[key] == s && Remembers(lastSeen, log)
      modifies this`lastSeen
      ensures Remembers(lastSeen, log) && lastSeen == old(lastSeen)[key := Touched(s, at)]
    {
      hide Remembers;
      TouchRemembers(lastSeen, log, key, at);
      if at > s.touched {
        lastSeen := lastSeen[key := s.(touched := at)];
      }
    }

    /** What becomes of an alert is decided by policy and by what was last said. */
    function Decide(a: Alert): Outcome
      reads this`lastSeen
    {
      match policy(a)
      case None => Filtered
      case Some(b) => if b.key in lastSeen && Repeats(lastSeen[b.key], b, cooldown) then Suppressed else Reported
    }

    /** Remember an alert that repeats nothing, within bounds. */
    method Report(a: Alert) returns (ghost cut: Option<Time>)
      requires Sound() && (a.key in lastSeen ==> !Repeats(lastSeen[a.key], a, cooldown))
      modifies `lastSeen, `dropped, `log, `allowed, `emitted
      ensures Sound() && allowed == old(allowed) + [a] && emitted == old(emitted) + 1
      ensures Remembered(old(lastSeen)[a.key := Said(a)], maxEntries, cut, lastSeen, old(log) + [Published(a)], log)
    {
      hide Remembers, AllNews, IsQuartile, Since, TouchedBefore, Publications, Reaches;
      ghost var before := lastSeen;
      PublishNews(lastSeen, log, a, cooldown);
      PublishRemembers(lastSeen, log, a);
      PublicationsNext(log, Published(a));
      log := log + [Published(a)];
      lastSeen := lastSeen[a.key := AlertState(a.time, a.time, a.severity, a.digest)];
      cut := BoundSuppression();
      ReachesNext(allowed, cooldown, maxEntries, before, a, lastSeen);
      allowed := allowed + [a];
      emitted := emitted + 1;
    }

    /** Note an alert that repeats what was last said. */
    method Suppress(a: Alert)
      requires Sound() && a.key in lastSeen && Repeats(lastSeen[a.key], a, cooldown)
      modifies `lastSeen, `allowed, `suppressed
      ensures Sound() && allowed == old(allowed) + [a] && suppressed == old(suppressed) + 1
      ensures lastSeen == old(lastSeen)[a.key := Touched(old(lastSeen)[a.key], a.time)]
    {
      hide Remembers, AllNews, Publications, Reaches, Repeats;
      ghost var before := lastSeen;
      Touch(a.key, lastSeen[a.key], a.time);
      ReachesNext(allowed, cooldown, maxEntries, before, a, lastSeen);
      allowed := allowed + [a];
      suppressed := suppressed + 1;
    }

    lemma NewsPublished(offered: Alert)
      requires Valid()
      ensures policy(offered).Some? ==>
                var b := policy(offered).value;
                var said := LastSaid(log, b.key);
                Decide(offered) == Reported <==> said.None? || IsNews(said.value, b, cooldown)
    {
      hide Remembers, Reaches, AllNews, LastSaid, IsNews, Repeats;
      if policy(offered).Some? {
        RepeatsNoNews(lastSeen, log, policy(offered).value, cooldown);
      }
    }

    /** Apply suppression, and pass on the alerts that survive it. */
    method Emit(offered: Alert) returns (out: Option<Alert>, ghost cut: Option<Time>)
      requires Valid()
      modifies this
      ensures Valid() && calls == old(calls) + 1
      ensures allowed == if policy(offered).Some? then old(allowed) + [policy(offered).value] else old(allowed)
      ensures out == if old(Decide(offered)) == Reported then policy(offered) else None
      ensures policy(offered).Some? ==>
                var b := policy(offered).value;
                var said := old(LastSaid(log, b.key));
                out == Some(b) <==> said.None? || IsNews(said.value, b, cooldown)
      ensures filtered == old(filtered) + if old(Decide(offered)) == Filtered then 1 else 0
      ensures suppressed == old(suppressed) + if old(Decide(offered)) == Suppressed then 1 else 0
      ensures old(Decide(offered)) == Filtered ==> lastSeen == old(lastSeen) && log == old(log)
      ensures old(Decide(offered)) == Suppressed ==>
                var b := policy(offered).value;
                lastSeen == old(lastSeen)[b.key := Touched(old(lastSeen)[b.key], b.time)] && log == old(log)
      ensures old(Decide(offered)) == Reported ==>
                var b := policy(offered).value;
                Remembered(old(lastSeen)[b.key := Said(b)], maxEntries, cut, lastSeen, old(log) + [Published(b)], log)
    {
      hide Sound, Remembered, Said, Touched, LastSaid, IsNews;
      NewsPublished(offered);
      calls := calls + 1;
      cut := None;
      var passed := policy(offered);
      if passed.None? {
        filtered := filtered + 1;
        return None, None;
      }
      var a := passed.value;
      if a.key in lastSeen {
        var prev := lastSeen[a.key];
        if prev.digest == a.digest {
          Suppress(a);
          return None, None;
        } else if a.severity > prev.severity {
        } else if a.time - prev.at < cooldown {
          Suppress(a);
          return None, None;
        }
      }
      cut := Report(a);
      return Some(a), cut;
    }
  }

  /** Within the cap everything stays; over it the cut is made, and the log says what went. */
  ghost predicate Remembered(m: map<FindingKey, AlertState>, cap: nat, cut: Option<Time>,
                             after: map<FindingKey, AlertState>,
                             said: seq<Entry>, log: seq<Entry>) {
    && (cut.Some? <==> |m| > cap)
    && (cut.None? ==> after == m && log == said)
    && (cut.Some? ==> IsQuartile(m, cut.value) && after == Since(m, cut.value)
                      && log == said + [Dropped(TouchedBefore(m, cut.value))])
  }

  /** Offering one more finding at the same instant, the engine keeps it. */
  method OfferTied(e: Engine, n: nat, t: Time)
    requires e.Valid() && e.lastSeen == Held(n, t) && e.policy(Tied(n, t)) == Some(Tied(n, t))
    modifies e
    ensures e.Valid() && e.lastSeen == Held(n + 1, t)
  {
    HeldNext(n, t, e.maxEntries, Held(n + 1, t));
    hide Engine.Valid, Held, IsQuartile, Since, TouchedBefore;
    ghost var m := e.lastSeen[Tied(n, t).key := Said(Tied(n, t))];
    var _, _ := e.Emit(Tied(n, t));
    assert AfterReport(Held(n, t), Tied(n, t), e.maxEntries, e.lastSeen);
    HeldNext(n, t, e.maxEntries, e.lastSeen);
  }

  function LetThrough(a: Alert): Option<Alert> { Some(a) }

  /** Findings offered at one instant to an engine of any cap are all remembered. */
  method OfferVolley(n: nat, t: Time, cooldown: nat, cap: nat) returns (e: Engine)
    ensures e.Valid() && e.maxEntries == cap && e.lastSeen == Held(n, t) && |e.lastSeen| == n
  {
    hide Engine.Valid, Held;
    HeldNone(t);
    e := new Engine(LetThrough, cooldown, cap);
    for i := 0 to n
      invariant fresh(e) && e.Valid() && e.maxEntries == cap && e.lastSeen == Held(i, t) && e.policy == LetThrough
    {
      OfferTied(e, i, t);
    }
    HeldAll(n, t);
  }

  lemma HeldNone(t: Time)
    ensures Held(0, t) == map[]
  {
  }
}
