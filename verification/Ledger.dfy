/**
 The pipeline's books: every flow is live, evicted or closed, and packets, bytes and
 fingerprints are counted once. Kept on values, apart from the heap that carries them.
 */
module Ledger {
  import opened Flows
  import opened FlowTable
  import opened FlowRuns
  import opened Rolls

  function Printed(fs: seq<Flow>): nat {
    if fs == [] then 0 else (if fs[0].ja4 != [] then 1 else 0) + Printed(fs[1..])
  }

  /** Where every flow created so far is now, with the numbers they were created under. */
  datatype Books = Books(live: seq<Flow>, evicted: seq<Flow>, closed: seq<Flow>, roll: Roll)

  ghost predicate Balanced(b: Books, created: nat, packets: nat, bytes: nat, fingerprints: nat) {
    && Enrolled(b.roll, b.live, b.evicted, b.closed) && created == |b.roll.births|
    && created == |b.live| + |b.evicted| + |b.closed|
    && packets == SumPackets(b.live) + SumPackets(b.evicted) + SumPackets(b.closed)
    && bytes == SumBytes(b.live) + SumBytes(b.evicted) + SumBytes(b.closed)
    && fingerprints == Printed(b.live) + Printed(b.evicted) + Printed(b.closed)
  }

  lemma {:induction false} PrintedSplit(fs: seq<Flow>, n: nat)
    requires n <= |fs|
    ensures Printed(fs) == Printed(fs[..n]) + Printed(fs[n..])
  {
    if n == 0 {
      assert fs[0..] == fs;
    } else {
      PrintedSplit(fs[1..], n - 1);
      assert fs[..n][1..] == fs[1..][..n - 1] && fs[n..] == fs[1..][n - 1..];
    }
  }

  lemma PrintedAppend(a: seq<Flow>, b: seq<Flow>)
    ensures Printed(a + b) == Printed(a) + Printed(b)
  {
    assert (a + b)[..|a|] == a && (a + b)[|a|..] == b;
    PrintedSplit(a + b, |a|);
  }

  lemma PrintedOne(f: Flow)
    ensures Printed([f]) == if f.ja4 != [] then 1 else 0
  {
    assert [f][1..] == [];
  }

  lemma FoldedPrint(flows: seq<Flow>, p: Packet)
    ensures Folded(flows, p).ja4 == if Holds(flows, KeyFor(p)) then flows[IndexOf(flows, KeyFor(p))].ja4 else []
  {
    hide Flow.Observe;
    ObserveAccounts(if Holds(flows, KeyFor(p)) then flows[IndexOf(flows, KeyFor(p))] else NewFlow(KeyFor(p)), p);
  }

  /** A packet neither adds nor removes a fingerprint. */
  lemma TouchedPrinted(flows: seq<Flow>, p: Packet)
    ensures Printed(Touched(flows, p)) == Printed(flows)
  {
    var i := IndexOf(flows, KeyFor(p));
    FoldedPrint(flows, p);
    hide Folded;
    PrintedAppend(Without(flows, KeyFor(p)), [Folded(flows, p)]);
    PrintedOne(Folded(flows, p));
    if i < |flows| {
      PrintedSplit(flows, i);
      PrintedAppend(flows[..i], flows[i + 1..]);
      PrintedAppend([flows[i]], flows[i + 1..]);
      PrintedOne(flows[i]);
      assert flows[i..] == [flows[i]] + flows[i + 1..];
    }
  }

  /** Observing a packet keeps the books balanced with one more packet in them. */
  lemma ObserveBalances(b: Books, p: Packet, k: nat, created: nat, packets: nat, bytes: nat, fingerprints: nat)
    requires Balanced(b, created, packets, bytes, fingerprints) && k <= |Touched(b.live, p)|
    ensures var touched := Touched(b.live, p);
            Balanced(Books(touched[k..], b.evicted + touched[..k], b.closed, RollSeen(b.roll, b.live, p, k)),
                     created + (if Holds(b.live, KeyFor(p)) then 0 else 1), packets + 1, bytes + p.wireLength, fingerprints)
  {
    hide Touched, SumPackets, SumBytes, Printed, Holds, Enrolled, RollSeen;
    var touched := Touched(b.live, p);
    TouchedSums(b.live, p);
    TouchedPrinted(b.live, p);
    SeenEnrolled(b.roll, b.live, b.evicted, b.closed, p, k);
    BirthsSeen(b.roll, b.live, b.evicted, b.closed, p, k);
    SumsSplit(touched, k);
    PrintedSplit(touched, k);
    SumsAppend(b.evicted, touched[..k]);
    PrintedAppend(b.evicted, touched[..k]);
  }

  lemma BirthsSeen(r: Roll, live: seq<Flow>, evicted: seq<Flow>, closed: seq<Flow>, p: Packet, k: nat)
    requires Enrolled(r, live, evicted, closed) && k <= |Touched(live, p)|
    ensures |RollSeen(r, live, p, k).births| == |r.births| + if Holds(live, KeyFor(p)) then 0 else 1
  {
    hide Touched, NumbersTouched, Holds;
  }

  /** Closing the coldest flows moves them from live to closed. */
  lemma CloseBalances(b: Books, n: nat, created: nat, packets: nat, bytes: nat, fingerprints: nat)
    requires Balanced(b, created, packets, bytes, fingerprints) && n <= |b.live|
    ensures Balanced(Books(b.live[n..], b.evicted, b.closed + b.live[..n], RollClosed(b.roll, n)), created, packets, bytes, fingerprints)
  {
    hide SumPackets, SumBytes, Printed;
    ClosedEnrolled(b.roll, b.live, b.evicted, b.closed, n);
    hide Enrolled;
    SumsSplit(b.live, n);
    PrintedSplit(b.live, n);
    SumsAppend(b.closed, b.live[..n]);
    PrintedAppend(b.closed, b.live[..n]);
  }

  lemma ReplaceSums(flows: seq<Flow>, i: nat, f: Flow)
    requires i < |flows| && f.Packets() == flows[i].Packets() && f.TotalBytes() == flows[i].TotalBytes()
    ensures SumPackets(flows[i := f]) == SumPackets(flows) && SumBytes(flows[i := f]) == SumBytes(flows)
    ensures Printed(flows[i := f]) - Printed(flows) == (if f.ja4 != [] then 1 else 0) - (if flows[i].ja4 != [] then 1 else 0)
  {
    hide Flow.Packets, Flow.TotalBytes;
    var g := flows[i := f];
    assert flows == flows[..i] + ([flows[i]] + flows[i + 1..]);
    assert g == flows[..i] + ([f] + flows[i + 1..]);
    SumsAppend(flows[..i], [flows[i]] + flows[i + 1..]);
    SumsAppend([flows[i]], flows[i + 1..]);
    SumsAppend(flows[..i], [f] + flows[i + 1..]);
    SumsAppend([f], flows[i + 1..]);
    SumsOfOne(f);
    SumsOfOne(flows[i]);
    PrintedAppend(flows[..i], [flows[i]] + flows[i + 1..]);
    PrintedAppend([flows[i]], flows[i + 1..]);
    PrintedAppend(flows[..i], [f] + flows[i + 1..]);
    PrintedAppend([f], flows[i + 1..]);
    PrintedOne(f);
    PrintedOne(flows[i]);
  }

  /** Recording a first fingerprint adds one to the books; a server fingerprint adds none. */
  lemma PrintBalances(b: Books, i: nat, f: Flow, created: nat, packets: nat, bytes: nat, fingerprints: nat)
    requires Balanced(b, created, packets, bytes, fingerprints) && i < |b.live|
    requires f.Packets() == b.live[i].Packets() && f.TotalBytes() == b.live[i].TotalBytes()
    requires f.key == b.live[i].key && (b.live[i].ja4 == [] || f.ja4 == b.live[i].ja4)
    ensures Balanced(Books(b.live[i := f], b.evicted, b.closed, b.roll), created, packets, bytes,
                     fingerprints + if b.live[i].ja4 == [] && f.ja4 != [] then 1 else 0)
  {
    ReplaceSums(b.live, i, f);
    ReplacedEnrolled(b.roll, b.live, b.evicted, b.closed, i, f);
    hide SumPackets, SumBytes, Printed, Enrolled;
  }

  // --- which keys are live ---

  /** Every key is that of a listed flow. */
  ghost predicate AllLive(keys: set<FlowKey>, flows: seq<Flow>) {
    forall k | k in keys :: HasKey(flows, k)
  }

  /** After a packet, a key that was live is live or has just been shed. */
  lemma TouchedKeys(flows: seq<Flow>, p: Packet, k: nat, key: FlowKey)
    requires k <= |Touched(flows, p)| && HasKey(flows, key)
    ensures HasKey(Touched(flows, p)[k..], key) || key in KeysOf(Touched(flows, p)[..k])
  {
    hide Flow.Observe;
    var touched := Touched(flows, p);
    var w := Without(flows, KeyFor(p));
    var i :| 0 <= i < |flows| && flows[i].key == key;
    var at := IndexOf(flows, KeyFor(p));
    if key == KeyFor(p) {
      HasKeyAt(touched, |touched| - 1, k);
    } else {
      HasKeyAt(touched, if i < at then i else i - 1, k);
    }
  }

  lemma HasKeyAt(flows: seq<Flow>, i: nat, k: nat)
    requires i < |flows| && k <= |flows|
    ensures HasKey(flows[k..], flows[i].key) || flows[i].key in KeysOf(flows[..k])
  {
    if i < k {
      assert KeysOf(flows[..k])[i] == flows[i].key;
    } else {
      assert flows[k..][i - k] == flows[i];
    }
  }

  lemma SplitKeys(flows: seq<Flow>, k: nat, key: FlowKey)
    requires k <= |flows| && HasKey(flows, key)
    ensures HasKey(flows[k..], key) || key in KeysOf(flows[..k])
  {
    var i :| 0 <= i < |flows| && flows[i].key == key;
    HasKeyAt(flows, i, k);
  }
}
