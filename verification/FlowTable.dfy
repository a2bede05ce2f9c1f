/**
 The flow table: a map from key to entry, and an intrusive doubly linked list of the same
 entries ordered by recency, least recently touched first.
 */
module FlowTable {
  import opened Bytes
  import opened Collections
  import opened Flows

  // --- what the table does, on the sequence of its flows (least recently touched first) ---

  function IndexOf(flows: seq<Flow>, key: FlowKey): (i: nat)
    ensures i <= |flows|
    ensures i < |flows| ==> flows[i].key == key
    ensures forall j | 0 <= j < i :: flows[j].key != key
  {
    if flows == [] then 0 else if flows[0].key == key then 0 else 1 + IndexOf(flows[1..], key)
  }

  predicate Holds(flows: seq<Flow>, key: FlowKey) { IndexOf(flows, key) < |flows| }

  function Without(flows: seq<Flow>, key: FlowKey): seq<Flow> {
    var i := IndexOf(flows, key);
    if i < |flows| then Remove(flows, i) else flows
  }

  /** The flow a packet belongs to, with the packet folded in. */
  function Folded(flows: seq<Flow>, p: Packet): Flow {
    var i := IndexOf(flows, KeyFor(p));
    (if i < |flows| then flows[i] else NewFlow(KeyFor(p))).Observe(p)
  }

  function Touched(flows: seq<Flow>, p: Packet): (r: seq<Flow>)
    ensures |r| > 0
  {
    Without(flows, KeyFor(p)) + [Folded(flows, p)]
  }

  /** How many flows a table of `n` sheds from its cold end; never the one just touched. */
  function Excess(n: nat, maxFlows: nat): (k: nat)
    requires n > 0
    ensures k < n
  {
    if n <= maxFlows then 0 else if maxFlows == 0 then n - 1 else n - maxFlows
  }

  /** How many flows at the cold end were last seen at or before the cutoff. */
  function ExpiredPrefix(flows: seq<Flow>, cutoff: Time): (n: nat)
    ensures n <= |flows|
    ensures forall j | 0 <= j < n :: flows[j].lastSeen <= cutoff
    ensures n < |flows| ==> flows[n].lastSeen > cutoff
  {
    if flows == [] || flows[0].lastSeen > cutoff then 0 else 1 + ExpiredPrefix(flows[1..], cutoff)
  }

  /** The flows that stay once a packet is folded in, and those shed from the cold end for it. */
  function Stay(flows: seq<Flow>, p: Packet, maxFlows: nat): seq<Flow> {
    var touched := Touched(flows, p);
    touched[Excess(|touched|, maxFlows)..]
  }

  function Shed(flows: seq<Flow>, p: Packet, maxFlows: nat): seq<Flow> {
    var touched := Touched(flows, p);
    touched[..Excess(|touched|, maxFlows)]
  }

  ghost predicate DistinctKeys(flows: seq<Flow>) {
    forall i, j | 0 <= i < j < |flows| :: flows[i].key != flows[j].key
  }

  lemma IndexUnique(flows: seq<Flow>, i: nat)
    requires DistinctKeys(flows) && i < |flows|
    ensures IndexOf(flows, flows[i].key) == i
  {
  }

  // --- the heap structure ---

  class Entry {
    var flow: Flow
    var prev: Entry?
    var next: Entry?

    constructor (key: FlowKey)
      ensures flow == NewFlow(key) && prev == null && next == null
    {
      flow := NewFlow(key);
      prev := null;
      next := null;
    }
  }

  /** The entries hold these flows now. */
  ghost predicate Mirrors(order: seq<Entry>, contents: seq<Flow>)
    reads order`flow
  {
    |order| == |contents| && forall i {:trigger order[i].flow} {:trigger contents[i]} | 0 <= i < |order| :: order[i].flow == contents[i]
  }

  ghost predicate Distinct(order: seq<Entry>) {
    forall i, j | 0 <= i < j < |order| :: order[i] != order[j]
  }

  ghost predicate HasKey(contents: seq<Flow>, k: FlowKey) {
    exists i :: 0 <= i < |contents| && contents[i].key == k
  }

  /** The map holds exactly the listed entries, each under the key of its flow. */
  ghost predicate Indexes(flows: map<FlowKey, Entry>, order: seq<Entry>, contents: seq<Flow>) {
    && |flows| == |order| == |contents|
    && (forall i | 0 <= i < |contents| :: contents[i].key in flows && flows[contents[i].key] == order[i])
    && (forall k | k in flows :: HasKey(contents, k))
  }

  lemma IndexesDistinct(flows: map<FlowKey, Entry>, order: seq<Entry>, contents: seq<Flow>)
    requires Indexes(flows, order, contents) && Distinct(order)
    ensures DistinctKeys(contents)
  {
  }

  lemma IndexAppend(flows: map<FlowKey, Entry>, order: seq<Entry>, contents: seq<Flow>, e: Entry, f: Flow)
    requires Indexes(flows, order, contents) && f.key !in flows
    ensures Indexes(flows[f.key := e], order + [e], contents + [f])
  {
    var c := contents + [f];
    Grows(flows, f.key, e);
    assert c[|contents|] == f;
    forall k | k in flows ensures HasKey(c, k) {
      var i :| 0 <= i < |contents| && contents[i].key == k;
      assert c[i] == contents[i];
    }
  }

  lemma RemoveKeepsKeys(contents: seq<Flow>, i: nat, k: FlowKey)
    requires i < |contents| && HasKey(contents, k) && k != contents[i].key
    ensures HasKey(Remove(contents, i), k)
  {
    var j :| 0 <= j < |contents| && contents[j].key == k;
    RemoveAt(contents, i, if j < i then j else j - 1);
  }

  lemma IndexRemove(flows: map<FlowKey, Entry>, order: seq<Entry>, contents: seq<Flow>, i: nat)
    requires Indexes(flows, order, contents) && Distinct(order) && i < |order|
    ensures Indexes(flows - {contents[i].key}, Remove(order, i), Remove(contents, i))
  {
    hide Remove, Distinct, HasKey;
    var key := contents[i].key;
    var m, o, c := flows - {key}, Remove(order, i), Remove(contents, i);
    IndexesDistinct(flows, order, contents);
    Shrinks(flows, key);
    forall j | 0 <= j < |c| ensures c[j].key in m && m[c[j].key] == o[j] {
      RemoveAt(contents, i, j);
      RemoveAt(order, i, j);
      var l := if j < i then j else j + 1;
      assert contents[l].key != key && flows[contents[l].key] == order[l];
    }
    forall k | k in m ensures HasKey(c, k) {
      RemoveKeepsKeys(contents, i, k);
    }
  }

  lemma IndexReplace(flows: map<FlowKey, Entry>, order: seq<Entry>, contents: seq<Flow>, i: nat, f: Flow)
    requires Indexes(flows, order, contents) && i < |contents| && f.key == contents[i].key
    ensures Indexes(flows, order, contents[i := f])
  {
    var c := contents[i := f];
    forall k | k in flows ensures HasKey(c, k) {
      var j :| 0 <= j < |contents| && contents[j].key == k;
      assert c[j].key == k;
    }
  }

  lemma MapRestore(flows: map<FlowKey, Entry>, key: FlowKey)
    requires key in flows
    ensures (flows - {key})[key := flows[key]] == flows
  {
  }

  lemma IndexMove(flows: map<FlowKey, Entry>, order: seq<Entry>, contents: seq<Flow>, i: nat, f: Flow)
    requires Indexes(flows, order, contents) && Distinct(order) && i < |order| && f.key == contents[i].key
    ensures Indexes(flows, Remove(order, i) + [order[i]], Remove(contents, i) + [f])
  {
    MapRestore(flows, f.key);
    IndexRemove(flows, order, contents, i);
    assert flows[f.key] == order[i];
    hide Indexes, Distinct, Remove;
    IndexAppend(flows - {f.key}, Remove(order, i), Remove(contents, i), order[i], f);
  }

  class Table {
    var flows: map<FlowKey, Entry>
    var head: Entry?
    var tail: Entry?
    const maxFlows: nat
    const idleTimeout: nat

    var created: nat
    var evicted: nat
    var expired: nat

    ghost var order: seq<Entry> // the list, least recently touched first
    ghost var contents: seq<Flow> // the flows it holds
    ghost var drained: nat

    /** Walking `next` from `head` visits `order`; `prev` inverts it. */
    ghost predicate Linked()
      reads `head, `tail, `order, order`prev, order`next
    {
      && Distinct(order)
      && (if order == [] then head == null && tail == null
          else head == order[0] && tail == order[|order| - 1] && head.prev == null && tail.next == null)
      && (forall i {:trigger order[i].prev} | 0 < i < |order| :: order[i].prev == order[i - 1])
      && (forall i {:trigger order[i].next} | 0 <= i < |order| - 1 :: order[i].next == order[i + 1])
    }

    ghost predicate Consistent()
      reads this, order
    {
      && Linked() && Mirrors(order, contents) && Indexes(flows, order, contents)
      && created == evicted + expired + drained + |flows|
    }

    ghost predicate Valid()
      reads this, order
    {
      Consistent() && maxFlows > 0 && |flows| <= maxFlows
    }

    constructor (maxFlows: nat, idleTimeout: nat)
      requires maxFlows > 0
      ensures Valid() && contents == [] && order == [] && this.maxFlows == maxFlows && this.idleTimeout == idleTimeout
      ensures created == evicted == expired == drained == 0
    {
      flows := map[];
      head := null;
      tail := null;
      this.maxFlows := maxFlows;
      this.idleTimeout := idleTimeout;
      created := 0;
      evicted := 0;
      expired := 0;
      order := [];
      contents := [];
      drained := 0;
    }

    method Unlink(e: Entry, ghost i: nat)
      requires Linked() && i < |order| && order[i] == e
      modifies this`head, this`tail, this`order, order`prev, order`next
      ensures order == Remove(old(order), i)
      ensures Linked() && e.prev == null && e.next == null
    {
      hide Remove;
      assert if i == 0 then e.prev == null else e.prev == order[i - 1];
      assert if i == |order| - 1 then e.next == null else e.next == order[i + 1];
      if e.prev != null {
        e.prev.next := e.next;
      } else if head == e {
        head := e.next;
      }
      if e.next != null {
        e.next.prev := e.prev;
      } else if tail == e {
        tail := e.prev;
      }
      e.prev, e.next := null, null;
      ghost var was := order;
      order := Remove(was, i);
      forall j | 0 <= j < |order| ensures order[j] == was[if j < i then j else j + 1] {
        RemoveAt(was, i, j);
      }
    }

    method PushBack(e: Entry)
      requires Linked() && e !in order
      modifies this`head, this`tail, this`order, order`next, e`prev, e`next
      ensures order == old(order) + [e] && Linked()
    {
      e.prev, e.next := tail, null;
      if tail != null {
        tail.next := e;
      }
      tail := e;
      if head == null {
        head := e;
      }
      order := order + [e];
    }

    lemma IsDistinct()
      requires Linked()
      ensures Distinct(order)
    {
    }

    lemma NotElsewhere(i: nat)
      requires Linked() && i < |order|
      ensures order[i] !in Remove(order, i) && Distinct(order)
    {
    }

    /** Where an entry sits in the list is where its flow sits in the contents. */
    lemma Locate(key: FlowKey)
      requires Linked() && Indexes(flows, order, contents)
      ensures DistinctKeys(contents)
      ensures Holds(contents, key) <==> key in flows
      ensures key in flows ==> order[IndexOf(contents, key)] == flows[key]
    {
      IndexesDistinct(flows, order, contents);
    }

    method TouchNew(p: Packet) returns (e: Entry)
      requires Consistent() && KeyFor(p) !in flows
      modifies this`flows, this`created, this`head, this`tail, this`order, this`contents, order`prev, order`next
      ensures Consistent() && fresh(e) && order == old(order) + [e]
      ensures contents == old(contents) + [NewFlow(KeyFor(p)).Observe(p)]
      ensures |flows| == old(|flows|) + 1 && created == old(created) + 1
    {
      hide Flow.Observe, Linked, Indexes;
      var key := KeyFor(p);
      e := new Entry(key);
      var f := e.flow.Observe(p);
      IndexAppend(flows, order, contents, e, f);
      Grows(flows, key, e);
      flows := flows[key := e];
      created := created + 1;
      e.flow := f;
      Attach(e);
    }

    /** Take the entry of a key out of the list, still mapped. */
    method Detach(e: Entry, ghost i: nat)
      requires Linked() && Mirrors(order, contents) && i < |order| && e == order[i]
      modifies this`head, this`tail, this`order, this`contents, order`prev, order`next
      ensures order == Remove(old(order), i) && contents == Remove(old(contents), i)
      ensures forall j | 0 <= j < |order| :: order[j] in old(order)
      ensures Linked() && Mirrors(order, contents) && e.flow == old(contents)[i] && e !in order
    {
      NotElsewhere(i);
      ghost var was := order;
      hide Linked;
      Unlink(e, i);
      ghost var after := Remove(contents, i);
      forall j | 0 <= j < |order| ensures order[j].flow == after[j] {
        RemoveAt(was, i, j);
        RemoveAt(contents, i, j);
      }
      contents := after;
    }

    /** Put an entry at the warm end of the list. */
    method Attach(e: Entry)
      requires Linked() && Mirrors(order, contents) && e !in order
      modifies this`head, this`tail, this`order, this`contents, order`next, e`prev, e`next
      ensures order == old(order) + [e] && contents == old(contents) + [e.flow]
      ensures Linked() && Mirrors(order, contents)
    {
      hide Linked;
      contents := contents + [e.flow];
      PushBack(e);
    }

    /** Moving the packet's entry to the end, with the packet folded in, is what `Touched` says. */
    lemma TouchOldIs(p: Packet, i: nat)
      requires Consistent() && KeyFor(p) in flows && i == IndexOf(contents, KeyFor(p))
      ensures i < |order| && flows[KeyFor(p)] == order[i] && order[i] in order
      ensures var f := contents[i].Observe(p);
              && Touched(contents, p) == Remove(contents, i) + [f]
              && Indexes(flows, Remove(order, i) + [order[i]], Remove(contents, i) + [f])
    {
      hide Flow.Observe, Remove;
      Locate(KeyFor(p));
      IsDistinct();
      IndexMove(flows, order, contents, i, contents[i].Observe(p));
    }

    method TouchOld(p: Packet) returns (e: Entry)
      requires Consistent() && KeyFor(p) in flows
      modifies this`head, this`tail, this`order, this`contents, order`prev, order`next, order`flow
      ensures Consistent() && e in old(order) && order != [] && order[|order| - 1] == e
      ensures contents == Touched(old(contents), p)
      ensures forall j | 0 <= j < |order| :: order[j] in old(order)
    {
      hide Flow.Observe, Remove, Indexes, IndexOf, KeyFor, Touched, Linked;
      ghost var i := IndexOf(contents, KeyFor(p));
      TouchOldIs(p, i);
      e := flows[KeyFor(p)];
      Detach(e, i);
      e.flow := e.flow.Observe(p);
      Attach(e);
    }

    /** Unlink the least recently touched entry and forget its key. */
    method PopHead() returns (e: Entry)
      requires Linked() && Mirrors(order, contents) && Indexes(flows, order, contents) && head != null
      modifies this`flows, this`head, this`tail, this`order, this`contents, order`prev, order`next
      ensures Linked() && Mirrors(order, contents) && Indexes(flows, order, contents)
      ensures old(order) != [] && e == old(order)[0] && order == old(order)[1..]
      ensures contents == old(contents)[1..] && e.flow == old(contents)[0]
      ensures |flows| == old(|flows|) - 1
    {
      hide Linked, Indexes, Remove;
      HeadIs();
      e := head;
      Detach(e, 0);
      flows := flows - {e.flow.key};
    }

    lemma HeadIs()
      requires Linked() && Mirrors(order, contents) && Indexes(flows, order, contents) && head != null
      ensures order != [] && head == order[0] && |order| == |contents|
      ensures Remove(order, 0) == order[1..] && Remove(contents, 0) == contents[1..]
      ensures Indexes(flows - {contents[0].key}, Remove(order, 0), Remove(contents, 0))
      ensures |flows - {contents[0].key}| == |flows| - 1
    {
      IsDistinct();
      IndexRemove(flows, order, contents, 0);
      Shrinks(flows, contents[0].key);
      assert Remove(order, 0) == order[1..] && Remove(contents, 0) == contents[1..];
    }

    /** Fold the packet into its flow, which may be new. */
    method Touch(p: Packet) returns (e: Entry, isNew: bool)
      requires Valid()
      modifies this`flows, this`created, this`head, this`tail, this`order, this`contents, order
      ensures Consistent() && |flows| <= maxFlows + 1
      ensures order != [] && order[|order| - 1] == e && contents == Touched(old(contents), p)
      ensures isNew == !Holds(old(contents), KeyFor(p)) && created == old(created) + if isNew then 1 else 0
      ensures forall j | 0 <= j < |order| :: order[j] in old(order) || fresh(order[j])
    {
      hide Flow.Observe, Linked, Indexes, Mirrors, IndexOf;
      ghost var before := contents;
      isNew := KeyFor(p) !in flows;
      LocateBriefly(KeyFor(p));
      if isNew {
        TouchedNew(before, p);
        e := TouchNew(p);
      } else {
        e := TouchOld(p);
      }
    }

    lemma LocateBriefly(key: FlowKey)
      requires Linked() && Mirrors(order, contents) && Indexes(flows, order, contents)
      ensures Holds(contents, key) <==> key in flows
      ensures key in flows ==> flows[key] in order && flows[key].flow == contents[IndexOf(contents, key)]
    {
      Locate(key);
    }

    /**
     Evict from the cold end while over capacity, never the entry just touched. `dropped` are the
     keys reported to the eviction callback, in order.
     */
    method EvictExcess(e: Entry) returns (dropped: seq<FlowKey>, ghost victims: seq<Flow>)
      requires Consistent() && maxFlows > 0 && |flows| <= maxFlows + 1
      requires order != [] && order[|order| - 1] == e
      modifies this`flows, this`evicted, this`head, this`tail, this`order, this`contents, order`prev, order`next
      ensures Valid() && order != [] && order[|order| - 1] == e
      ensures forall j | 0 <= j < |order| :: order[j] in old(order)
      ensures
        var k := Excess(|old(contents)|, maxFlows);
        && k <= |old(contents)| && contents == old(contents)[k..] && victims == old(contents)[..k]
        && dropped == KeysOf(victims) && evicted == old(evicted) + k
    {
      hide Consistent, Excess, KeysOf;
      KeysNone(contents);
      ghost var touched, list := contents, order;
      ghost var n := 0;
      dropped := [];
      CountsAgree();
      while |flows| > maxFlows && head != null && head != e
        invariant 0 <= n < |touched| && Consistent() && contents == touched[n..] && order == list[n..]
        invariant |list| == |touched|
        invariant |flows| == |touched| - n && list[|list| - 1] == e
        invariant n > 0 ==> |flows| >= maxFlows
        invariant dropped == KeysOf(touched[..n]) && evicted == old(evicted) + n
        decreases |flows|
      {
        var key := ShedHead(e, touched, list, n);
        DropKey(touched, n);
        dropped := dropped + [key];
        n := n + 1;
      }
      HeadOnly(e);
      ExcessIs(|touched|, maxFlows, n);
      SuffixWithin(list, n);
      victims := touched[..n];
    }

    /** Evict the flow at the cold end, the `n`th to go. */
    method ShedHead(e: Entry, ghost before: seq<Flow>, ghost list: seq<Entry>, ghost n: nat) returns (key: FlowKey)
      requires Consistent() && head != null && head != e
      requires n < |before| == |list| && contents == before[n..] && order == list[n..] && list[|list| - 1] == e
      modifies this`flows, this`evicted, this`head, this`tail, this`order, this`contents, order`prev, order`next
      ensures Consistent() && evicted == old(evicted) + 1 && |flows| == |old(flows)| - 1
      ensures n + 1 < |before| && contents == before[n + 1..] && order == list[n + 1..] && key == before[n].key
    {
      hide Linked, Mirrors, Indexes;
      CountsAgree();
      HeadNotLast(e);
      DropOne(before, n);
      DropOne(list, n);
      var victim := PopHead();
      evicted := evicted + 1;
      key := victim.flow.key;
    }

    /** Observe a packet: its flow moves to the warm end, and the table stays within its capacity. */
    method Observe(p: Packet) returns (e: Entry, isNew: bool, dropped: seq<FlowKey>, ghost victims: seq<Flow>)
      requires Valid()
      modifies this, order
      ensures Valid() && order != [] && order[|order| - 1] == e
      ensures isNew == !Holds(old(contents), KeyFor(p))
      ensures
        var touched := Touched(old(contents), p);
        var k := Excess(|touched|, maxFlows);
        && contents == touched[k..] && victims == touched[..k] && dropped == KeysOf(victims)
        && evicted == old(evicted) + k
      ensures created == old(created) + (if isNew then 1 else 0) && expired == old(expired) && drained == old(drained)
      ensures forall j | 0 <= j < |order| :: order[j] in old(order) || fresh(order[j])
    {
      hide Touched, Linked, Mirrors, Indexes, Holds, Excess;
      e, isNew := Touch(p);
      dropped, victims := EvictExcess(e);
    }

    lemma CountsAgree()
      requires Consistent()
      ensures |flows| == |contents| == |order|
    {
    }

    lemma HeadNotLast(e: Entry)
      requires Linked() && head != null && head != e && order[|order| - 1] == e
      ensures |order| >= 2
    {
    }

    lemma HeadOnly(e: Entry)
      requires Consistent() && order != [] && order[|order| - 1] == e
      ensures head != null && (head == e <==> |order| == 1)
    {
    }

    lemma ColdEnd()
      requires Valid()
      ensures if head == null then contents == [] else contents != [] && head.flow == contents[0]
    {
    }

    /** Expire the flow at the cold end, the `n`th to go. */
    method ExpireHead(ghost before: seq<Flow>, ghost list: seq<Entry>, ghost n: nat) returns (f: Flow)
      requires Valid() && head != null && n <= |before| && n <= |list| && contents == before[n..] && order == list[n..]
      modifies this`flows, this`expired, this`head, this`tail, this`order, this`contents, order`prev, order`next
      ensures Valid() && expired == old(expired) + 1
      ensures n < |before| && n < |list| && contents == before[n + 1..] && order == list[n + 1..] && f == before[n]
    {
      hide Linked, Mirrors, Indexes;
      CountsAgree();
      var e := PopHead();
      expired := expired + 1;
      DropOne(before, n);
      DropOne(list, n);
      f := e.flow;
    }

    /** Remove every flow at the cold end untouched since the cutoff. */
    method Reap(now: Time) returns (out: seq<Flow>)
      requires Valid()
      modifies this`flows, this`expired, this`head, this`tail, this`order, this`contents, order`prev, order`next
      ensures Valid()
      ensures
        var n := ExpiredPrefix(old(contents), now - idleTimeout);
        contents == old(contents)[n..] && out == old(contents)[..n] && expired == old(expired) + n
      ensures forall j | 0 <= j < |order| :: order[j] in old(order)
    {
      hide Valid, ExpiredPrefix;
      var cutoff := now - idleTimeout;
      ghost var before, list := contents, order;
      ghost var n := 0;
      out := [];
      ColdEnd();
      while head != null && head.flow.lastSeen <= cutoff
        invariant 0 <= n <= |before| && n <= |list| && Valid() && contents == before[n..] && order == list[n..]
        invariant if head == null then contents == [] else contents != [] && head.flow == contents[0]
        invariant out == before[..n] && expired == old(expired) + n
        invariant forall j | 0 <= j < n :: before[j].lastSeen <= cutoff
        decreases |before| - n
      {
        var f := ExpireHead(before, list, n);
        DropOne(before, n);
        out := out + [f];
        n := n + 1;
        ColdEnd();
      }
      PrefixEnds(before, cutoff, n);
      SuffixWithin(list, n);
    }

    /** Write a fingerprint, and the names that come with it, on a mapped flow. */
    method SetFingerprint(key: FlowKey, ja4: Octets, ja3: Octets, sni: Octets, alpn: Octets)
      requires Valid()
      modifies this`contents, order`flow
      ensures Valid() && contents == Fingerprinted(old(contents), key, ja4, ja3, sni, alpn)
    {
      hide Linked, Indexes;
      LocateBriefly(key);
      if key !in flows {
        return;
      }
      var e := flows[key];
      var f := e.flow.(ja4 := ja4, ja3 := ja3);
      if sni != [] {
        f := f.(sni := sni);
      }
      if alpn != [] {
        f := f.(alpn := alpn);
      }
      Store(key, f);
    }

    method SetServerFingerprint(key: FlowKey, ja4s: Octets)
      requires Valid()
      modifies this`contents, order`flow
      ensures Valid() && contents == ServerFingerprinted(old(contents), key, ja4s)
    {
      hide Linked, Indexes;
      LocateBriefly(key);
      if key in flows {
        Store(key, flows[key].flow.(ja4s := ja4s));
      }
    }

    method WriteFlow(e: Entry, f: Flow, ghost i: nat)
      requires Distinct(order) && Mirrors(order, contents) && i < |order| && e == order[i]
      modifies this`contents, e`flow
      ensures Mirrors(order, contents) && contents == old(contents)[i := f]
    {
      e.flow := f;
      contents := contents[i := f];
    }

    /** Replace the flow of a mapped entry, keeping its key. */
    method Store(key: FlowKey, f: Flow)
      requires Valid() && key in flows && f.key == key
      modifies this`contents, order`flow
      ensures Valid() && IndexOf(old(contents), key) < |old(contents)|
      ensures contents == old(contents)[IndexOf(old(contents), key) := f]
    {
      hide Linked, Indexes, Mirrors, IndexOf, Distinct;
      ghost var i := StoreIs(key, f);
      WriteFlow(flows[key], f, i);
    }

    lemma StoreIs(key: FlowKey, f: Flow) returns (i: nat)
      requires Valid() && key in flows && f.key == key
      ensures i == IndexOf(contents, key) && i < |order| == |contents| && flows[key] == order[i]
      ensures Distinct(order) && Indexes(flows, order, contents[i := f])
    {
      hide Mirrors;
      Locate(key);
      IsDistinct();
      i := IndexOf(contents, key);
      IndexReplace(flows, order, contents, i, f);
    }

    /** Every flow, walking the list from its cold end. */
    method Walk() returns (out: seq<Flow>)
      requires Linked() && Mirrors(order, contents)
      ensures out == contents
    {
      out := [];
      var e := head;
      while e != null
        invariant |out| <= |order| && out == contents[..|out|]
        invariant if |out| < |order| then e == order[|out|] else e == null
        decreases |order| - |out|
      {
        assert e.flow == contents[|out|];
        out := out + [e.flow];
        e := e.next;
      }
    }

    method Reset()
      modifies this`flows, this`head, this`tail, this`order, this`contents
      ensures flows == map[] && order == [] && contents == []
      ensures Linked() && Mirrors(order, contents) && Indexes(flows, order, contents)
    {
      flows := map[];
      head, tail := null, null;
      order, contents := [], [];
    }

    /** Remove and return every remaining flow. */
    method Drain() returns (out: seq<Flow>)
      requires Valid()
      modifies this`flows, this`head, this`tail, this`order, this`contents, this`drained
      ensures Valid() && contents == [] && order == [] && out == old(contents) && drained == old(drained) + |out|
    {
      hide Linked, Mirrors, Indexes;
      CountsAgree();
      out := Walk();
      Reset();
      drained := drained + |out|;
    }

    /** Copies of the flows from the warm end on; a limit of zero means all of them. */
    method Snapshot(limit: int) returns (out: seq<Flow>)
      requires Valid()
      ensures |out| == if 0 < limit < |contents| then limit else |contents|
      ensures forall j | 0 <= j < |out| :: out[j] == contents[|contents| - 1 - j]
    {
      CountsAgree();
      var n := |flows|;
      if 0 < limit < n {
        n := limit;
      }
      out := [];
      var e := tail;
      while e != null && |out| < n
        invariant |out| <= n
        invariant if |out| < |order| then e == order[|order| - 1 - |out|] else e == null
        invariant forall j | 0 <= j < |out| :: out[j] == contents[|contents| - 1 - j]
        decreases n - |out|
      {
        out := out + [e.flow];
        e := e.prev;
      }
    }
  }

  function Fingerprinted(flows: seq<Flow>, key: FlowKey, ja4: Octets, ja3: Octets, sni: Octets, alpn: Octets): seq<Flow> {
    var i := IndexOf(flows, key);
    if i == |flows| then flows
    else
      var f := flows[i].(ja4 := ja4, ja3 := ja3);
      var g := if sni != [] then f.(sni := sni) else f;
      flows[i := if alpn != [] then g.(alpn := alpn) else g]
  }

  function ServerFingerprinted(flows: seq<Flow>, key: FlowKey, ja4s: Octets): seq<Flow> {
    var i := IndexOf(flows, key);
    if i == |flows| then flows else flows[i := flows[i].(ja4s := ja4s)]
  }

  /** The same conversations, except for what fingerprinting writes. */
  ghost predicate SameButPrints(a: seq<Flow>, b: seq<Flow>) {
    && |a| == |b|
    && forall i {:trigger b[i]} | 0 <= i < |a| ::
         b[i] == a[i].(ja4 := b[i].ja4, ja3 := b[i].ja3, sni := b[i].sni, alpn := b[i].alpn, ja4s := b[i].ja4s)
  }

  /** A fingerprint is written on one flow at most, and nothing else changes. */
  lemma FingerprintedOnly(flows: seq<Flow>, key: FlowKey, ja4: Octets, ja3: Octets, sni: Octets, alpn: Octets)
    ensures SameButPrints(flows, Fingerprinted(flows, key, ja4, ja3, sni, alpn))
  {
    hide IndexOf;
  }

  lemma ServerFingerprintedOnly(flows: seq<Flow>, key: FlowKey, ja4s: Octets)
    ensures SameButPrints(flows, ServerFingerprinted(flows, key, ja4s))
  {
    hide IndexOf;
  }

  function KeysOf(flows: seq<Flow>): (r: seq<FlowKey>)
    ensures |r| == |flows|
  {
    seq(|flows|, i requires 0 <= i < |flows| => flows[i].key)
  }

  lemma SuffixWithin<T>(s: seq<T>, n: nat)
    requires n <= |s|
    ensures forall j | 0 <= j < |s| - n :: s[n..][j] in s
  {
  }

  lemma DropOne<T>(s: seq<T>, n: nat)
    requires n < |s|
    ensures s[n..] != [] && s[n..][0] == s[n] && s[n..][1..] == s[n + 1..]
    ensures s[..n + 1] == s[..n] + [s[n]]
  {
  }

  lemma KeysNone(flows: seq<Flow>)
    ensures KeysOf(flows[..0]) == []
  {
  }

  lemma DropKey(flows: seq<Flow>, n: nat)
    requires n < |flows|
    ensures KeysOf(flows[..n + 1]) == KeysOf(flows[..n]) + [flows[n].key]
  {
  }

  lemma TouchedNew(flows: seq<Flow>, p: Packet)
    requires !Holds(flows, KeyFor(p))
    ensures Touched(flows, p) == flows + [NewFlow(KeyFor(p)).Observe(p)]
  {
  }

  lemma ExcessIs(n: nat, maxFlows: nat, k: nat)
    requires 0 <= k < n && maxFlows > 0 && n - k <= maxFlows + 1
    requires n - k <= maxFlows || n - k == 1
    requires k > 0 ==> n - k >= maxFlows
    ensures k == Excess(n, maxFlows)
  {
  }

  lemma {:induction false} PrefixEnds(flows: seq<Flow>, cutoff: Time, n: nat)
    requires n <= |flows| && (forall j | 0 <= j < n :: flows[j].lastSeen <= cutoff)
    requires n < |flows| ==> flows[n].lastSeen > cutoff
    ensures ExpiredPrefix(flows, cutoff) == n
  {
    if n > 0 {
      PrefixEnds(flows[1..], cutoff, n - 1);
    }
  }
}
