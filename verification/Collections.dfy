/** Facts about sequences, sets and maps that several components need. */
module Collections {

  lemma Assoc<T>(a: seq<T>, b: seq<T>, c: seq<T>)
    ensures (a + b) + c == a + (b + c)
  {
  }

  lemma AppendTail<T>(s: seq<T>, x: T)
    requires s != []
    ensures (s + [x])[0] == s[0] && (s + [x])[1..] == s[1..] + [x]
  {
  }

  lemma HeadTail<T>(s: seq<T>)
    requires s != []
    ensures s == [s[0]] + s[1..]
  {
  }

  function Remove<T>(s: seq<T>, i: nat): (r: seq<T>)
    requires i < |s|
    ensures |r| == |s| - 1
    ensures forall x | x in r :: x in s
  {
    s[..i] + s[i + 1..]
  }

  lemma RemoveAt<T>(s: seq<T>, i: nat, j: nat)
    requires i < |s| && j < |s| - 1
    ensures Remove(s, i)[j] == s[if j < i then j else j + 1]
  {
  }

  lemma RemoveMultiset<T>(s: seq<T>, i: nat)
    requires i < |s|
    ensures multiset(Remove(s, i)) == multiset(s) - multiset{s[i]}
  {
    assert s == s[..i] + [s[i]] + s[i + 1..];
  }

  lemma CountFirst<T>(s: seq<T>, x: T)
    requires s != []
    ensures multiset(s)[x] == multiset(s[1..])[x] + if s[0] == x then 1 else 0
  {
    assert s == [s[0]] + s[1..];
  }

  lemma CountLast<T>(s: seq<T>, x: T)
    requires s != []
    ensures multiset(s)[x] == multiset(s[..|s| - 1])[x] + if s[|s| - 1] == x then 1 else 0
  {
    assert s == s[..|s| - 1] + [s[|s| - 1]];
  }

  /** A part of a set is no larger than the whole, and smaller when it is not the whole. */
  lemma {:induction false} SubsetCount<T>(some: set<T>, all: set<T>)
    requires some <= all
    ensures |some| <= |all|
    ensures some != all ==> |some| < |all|
  {
    if some != {} {
      var x :| x in some;
      SubsetCount(some - {x}, all - {x});
    }
  }

  lemma Shrinks<K, V>(m: map<K, V>, key: K)
    requires key in m
    ensures |m - {key}| == |m| - 1
  {
    assert (m - {key}).Keys == m.Keys - {key};
  }

  lemma Grows<K, V>(m: map<K, V>, key: K, v: V)
    ensures |m[key := v]| == if key in m then |m| else |m| + 1
  {
    assert m[key := v].Keys == m.Keys + {key};
  }

  // --- deleting from a map while ranging over it ---

  /** The keys still to visit are all there; of those visited, exactly the ones to keep. */
  ghost predicate Sieving<K(!new), V>(before: map<K, V>, now: map<K, V>, todo: set<K>, keep: set<K>) {
    && todo <= now.Keys
    && forall k :: (k in now <==> k in before && (k in todo || k in keep)) && (k in now ==> now[k] == before[k])
  }

  lemma SieveStarts<K(!new), V>(before: map<K, V>, keep: set<K>)
    ensures Sieving(before, before, before.Keys, keep)
  {
  }

  lemma SieveNext<K(!new), V>(before: map<K, V>, now: map<K, V>, todo: set<K>, keep: set<K>, k: K)
    requires Sieving(before, now, todo, keep) && k in todo
    ensures k in before && k in now && now[k] == before[k]
    ensures Sieving(before, if k in keep then now else now - {k}, todo - {k}, keep)
  {
  }

  lemma SieveEnds<K(!new), V>(before: map<K, V>, now: map<K, V>, kept: map<K, V>)
    requires Sieving(before, now, {}, kept.Keys) && forall k | k in kept :: k in before && kept[k] == before[k]
    ensures now == kept
  {
  }
}
