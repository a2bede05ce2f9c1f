/**
 Which flow went where. Every flow gets the number of its creation, and the numbers are kept beside
 the flows that are live, that were evicted and that were closed.
 */
module Rolls {
  import opened Collections
  import opened Flows
  import opened FlowTable

  /** Creation numbers in each place, and the key each number was created for. */
  datatype Roll = Roll(live: seq<nat>, evicted: seq<nat>, closed: seq<nat>, births: seq<FlowKey>)

  const NOBODY := Roll([], [], [], [])

  /** Numbers as a packet leaves them: its flow's at the warm end, a fresh one for a new flow. */
  function NumbersTouched(r: Roll, flows: seq<Flow>, p: Packet): (ids: seq<nat>)
    requires |r.live| == |flows|
    ensures |ids| == |Touched(flows, p)|
  {
    var i := IndexOf(flows, KeyFor(p));
    if i < |flows| then Remove(r.live, i) + [r.live[i]] else r.live + [|r.births|]
  }

  /** The roll once a packet is folded in and `k` flows are evicted. */
  function RollSeen(r: Roll, flows: seq<Flow>, p: Packet, k: nat): Roll
    requires |r.live| == |flows| && k <= |Touched(flows, p)|
  {
    var ids := NumbersTouched(r, flows, p);
    Roll(ids[k..], r.evicted + ids[..k], r.closed, if Holds(flows, KeyFor(p)) then r.births else r.births + [KeyFor(p)])
  }

  /** The roll once the `n` coldest flows are closed. */
  function RollClosed(r: Roll, n: nat): Roll
    requires n <= |r.live|
  {
    Roll(r.live[n..], r.evicted, r.closed + r.live[..n], r.births)
  }

  function UpTo(n: nat): seq<nat> { if n == 0 then [] else UpTo(n - 1) + [n - 1] }

  /** Each flow has the key its number was created for. */
  ghost predicate Named(ids: seq<nat>, flows: seq<Flow>, births: seq<FlowKey>) {
    && |ids| == |flows|
    && forall i {:trigger ids[i]} {:trigger flows[i]} | 0 <= i < |ids| :: ids[i] < |births| && births[ids[i]] == flows[i].key
  }

  /** The numbers in use, over all three places. */
  function Everyone(r: Roll): multiset<nat> { multiset(r.live) + multiset(r.evicted) + multiset(r.closed) }

  /** Every flow ever created is in exactly one place, and flows keep their keys wherever they go. */
  ghost predicate Enrolled(r: Roll, live: seq<Flow>, evicted: seq<Flow>, closed: seq<Flow>) {
    && Named(r.live, live, r.births) && Named(r.evicted, evicted, r.births) && Named(r.closed, closed, r.births)
    && Everyone(r) == multiset(UpTo(|r.births|))
  }

  lemma {:induction false} UpToOnce(n: nat, k: nat)
    ensures multiset(UpTo(n))[k] == if k < n then 1 else 0
  {
    if n > 0 {
      UpToOnce(n - 1, k);
    }
  }

  /** A creation number is in exactly one of the three places, and there exactly once. */
  lemma OnePlace(r: Roll, live: seq<Flow>, evicted: seq<Flow>, closed: seq<Flow>, k: nat)
    requires Enrolled(r, live, evicted, closed)
    ensures multiset(r.live)[k] + multiset(r.evicted)[k] + multiset(r.closed)[k] == if k < |r.births| then 1 else 0
  {
    hide Named, UpTo;
    UpToOnce(|r.births|, k);
    assert Everyone(r)[k] == multiset(UpTo(|r.births|))[k];
  }

  lemma SplitMultiset<T>(s: seq<T>, k: nat)
    requires k <= |s|
    ensures multiset(s[..k]) + multiset(s[k..]) == multiset(s)
  {
    assert s == s[..k] + s[k..];
  }

  lemma NamedSplit(ids: seq<nat>, flows: seq<Flow>, births: seq<FlowKey>, k: nat)
    requires Named(ids, flows, births) && k <= |ids|
    ensures Named(ids[..k], flows[..k], births) && Named(ids[k..], flows[k..], births)
  {
  }

  lemma NamedJoin(ids: seq<nat>, flows: seq<Flow>, more: seq<nat>, others: seq<Flow>, births: seq<FlowKey>)
    requires Named(ids, flows, births) && Named(more, others, births)
    ensures Named(ids + more, flows + others, births)
  {
  }

  lemma NamedGrows(ids: seq<nat>, flows: seq<Flow>, births: seq<FlowKey>, more: seq<FlowKey>)
    requires Named(ids, flows, births) && births <= more
    ensures Named(ids, flows, more)
  {
  }

  lemma TouchedNamed(r: Roll, flows: seq<Flow>, p: Packet)
    requires Named(r.live, flows, r.births)
    ensures var births := RollSeen(r, flows, p, 0).births;
            r.births <= births && Named(NumbersTouched(r, flows, p), Touched(flows, p), births)
  {
    hide Flow.Observe;
    var i := IndexOf(flows, KeyFor(p));
    if i < |flows| {
      NamedSplit(r.live, flows, r.births, i);
      NamedSplit(r.live, flows, r.births, i + 1);
      NamedJoin(r.live[..i], flows[..i], r.live[i + 1..], flows[i + 1..], r.births);
      NamedJoin(Remove(r.live, i), Remove(flows, i), [r.live[i]], [Folded(flows, p)], r.births);
    } else {
      NamedGrows(r.live, flows, r.births, r.births + [KeyFor(p)]);
      NamedJoin(r.live, flows, [|r.births|], [Folded(flows, p)], r.births + [KeyFor(p)]);
    }
  }

  /** A packet moves its own number, or adds the next one. */
  lemma TouchedNumbers(r: Roll, flows: seq<Flow>, p: Packet)
    requires |r.live| == |flows|
    ensures multiset(NumbersTouched(r, flows, p)) ==
            if Holds(flows, KeyFor(p)) then multiset(r.live) else multiset(r.live + [|r.births|])
  {
    var i := IndexOf(flows, KeyFor(p));
    if i < |flows| {
      RemoveMultiset(r.live, i);
    }
  }

  lemma Regroup(a: multiset<nat>, b: multiset<nat>, e: multiset<nat>, c: multiset<nat>, whole: multiset<nat>)
    requires a + b == whole
    ensures b + (e + a) + c == whole + e + c
  {
  }

  lemma UpToNext(m: multiset<nat>, e: multiset<nat>, c: multiset<nat>, n: nat)
    requires m + e + c == multiset(UpTo(n))
    ensures m + multiset{n} + e + c == multiset(UpTo(n + 1))
  {
  }

  lemma SeenNumbers(r: Roll, live: seq<Flow>, p: Packet, k: nat)
    requires |r.live| == |live| && k <= |Touched(live, p)| && Everyone(r) == multiset(UpTo(|r.births|))
    ensures Everyone(RollSeen(r, live, p, k)) == multiset(UpTo(|RollSeen(r, live, p, k).births|))
  {
    TouchedNumbers(r, live, p);
    hide Touched, NumbersTouched, UpTo, Holds;
    var ids := NumbersTouched(r, live, p);
    SplitMultiset(ids, k);
    Regroup(multiset(ids[..k]), multiset(ids[k..]), multiset(r.evicted), multiset(r.closed), multiset(ids));
    UpToNext(multiset(r.live), multiset(r.evicted), multiset(r.closed), |r.births|);
  }

  /** A packet, and the evictions it causes, keep every flow in one place. */
  lemma SeenEnrolled(r: Roll, live: seq<Flow>, evicted: seq<Flow>, closed: seq<Flow>, p: Packet, k: nat)
    requires Enrolled(r, live, evicted, closed) && k <= |Touched(live, p)|
    ensures var touched := Touched(live, p);
            Enrolled(RollSeen(r, live, p, k), touched[k..], evicted + touched[..k], closed)
  {
    TouchedNamed(r, live, p);
    SeenNumbers(r, live, p, k);
    hide Named, Touched, NumbersTouched, Holds, UpTo;
    var touched, ids, births := Touched(live, p), NumbersTouched(r, live, p), RollSeen(r, live, p, k).births;
    NamedGrows(r.evicted, evicted, r.births, births);
    NamedGrows(r.closed, closed, r.births, births);
    NamedSplit(ids, touched, births, k);
    NamedJoin(r.evicted, evicted, ids[..k], touched[..k], births);
  }

  /** Closing flows keeps every flow in one place. */
  lemma ClosedEnrolled(r: Roll, live: seq<Flow>, evicted: seq<Flow>, closed: seq<Flow>, n: nat)
    requires Enrolled(r, live, evicted, closed) && n <= |live|
    ensures n <= |r.live| && Enrolled(RollClosed(r, n), live[n..], evicted, closed + live[..n])
  {
    NamedSplit(r.live, live, r.births, n);
    NamedJoin(r.closed, closed, r.live[..n], live[..n], r.births);
    SplitMultiset(r.live, n);
    assert |r.live| == |live|;
    hide Named, UpTo;
  }

  /** Rewriting a flow under its key keeps the roll. */
  lemma ReplacedEnrolled(r: Roll, live: seq<Flow>, evicted: seq<Flow>, closed: seq<Flow>, i: nat, f: Flow)
    requires Enrolled(r, live, evicted, closed) && i < |live| && f.key == live[i].key
    ensures Enrolled(r, live[i := f], evicted, closed)
  {
  }

  /** A number never leaves the evicted or the closed, and stands for the same key for ever. */
  ghost predicate RollGrows(a: Roll, b: Roll) {
    a.evicted <= b.evicted && a.closed <= b.closed && a.births <= b.births
  }

  lemma RollStepsGrow(r: Roll, flows: seq<Flow>, p: Packet, k: nat, n: nat)
    requires |r.live| == |flows| && k <= |Touched(flows, p)| && n <= |r.live|
    ensures RollGrows(r, RollSeen(r, flows, p, k)) && RollGrows(r, RollClosed(r, n))
  {
    hide Touched, NumbersTouched, Holds;
  }

  lemma RollGrowsOn(a: Roll, b: Roll, c: Roll)
    requires RollGrows(a, b) && RollGrows(b, c)
    ensures RollGrows(a, c)
  {
  }
}
