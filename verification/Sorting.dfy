/** Sorting by a real-valued key, and the fact that a sorted arrangement is unique. */
module Sorting {

  ghost predicate SortedBy<T>(s: seq<T>, key: T -> real) {
    forall i, j | 0 <= i < j < |s| :: key(s[i]) <= key(s[j])
  }

  function Insert<T>(x: T, s: seq<T>, key: T -> real): (r: seq<T>)
    ensures |r| == |s| + 1
  {
    if s == [] then [x]
    else if key(x) <= key(s[0]) then [x] + s
    else [s[0]] + Insert(x, s[1..], key)
  }

  function Sort<T>(s: seq<T>, key: T -> real): (r: seq<T>)
    ensures |r| == |s|
  {
    if s == [] then [] else Insert(s[0], Sort(s[1..], key), key)
  }

  lemma {:induction false} InsertPermutes<T>(x: T, s: seq<T>, key: T -> real)
    ensures multiset(Insert(x, s, key)) == multiset{x} + multiset(s)
  {
    if s == [] {
    } else {
      assert s == [s[0]] + s[1..];
      InsertPermutes(x, s[1..], key);
    }
  }

  /** Every element inserted into is still at least the bound all of them met. */
  lemma InsertAbove<T>(x: T, s: seq<T>, key: T -> real, low: real)
    requires low <= key(x) && forall j | 0 <= j < |s| :: low <= key(s[j])
    ensures forall j | 0 <= j < |Insert(x, s, key)| :: low <= key(Insert(x, s, key)[j])
  {
    InsertPermutes(x, s, key);
    hide Insert;
    var r := Insert(x, s, key);
    forall j | 0 <= j < |r| ensures low <= key(r[j]) {
      assert r[j] in multiset(r);
      assert r[j] == x || r[j] in s;
    }
  }

  lemma FrontSorts<T>(x: T, s: seq<T>, key: T -> real)
    requires SortedBy(s, key) && forall j | 0 <= j < |s| :: key(x) <= key(s[j])
    ensures SortedBy([x] + s, key)
  {
  }

  lemma {:induction false} InsertSorts<T>(x: T, s: seq<T>, key: T -> real)
    requires SortedBy(s, key)
    ensures SortedBy(Insert(x, s, key), key)
  {
    if s == [] {
    } else if key(x) <= key(s[0]) {
      FrontSorts(x, s, key);
    } else {
      InsertSorts(x, s[1..], key);
      InsertAbove(x, s[1..], key, key(s[0]));
      FrontSorts(s[0], Insert(x, s[1..], key), key);
    }
  }

  /** `Sort` arranges exactly the given elements in order. */
  lemma {:induction false} SortSorts<T>(s: seq<T>, key: T -> real)
    ensures multiset(Sort(s, key)) == multiset(s)
    ensures SortedBy(Sort(s, key), key)
  {
    if s == [] {
    } else {
      assert s == [s[0]] + s[1..];
      SortSorts(s[1..], key);
      InsertSorts(s[0], Sort(s[1..], key), key);
      InsertPermutes(s[0], Sort(s[1..], key), key);
    }
  }

  /** Among the elements of `s`, equal keys mean equal elements. */
  ghost predicate KeyDecides<T>(s: seq<T>, key: T -> real) {
    forall i, j | 0 <= i < |s| && 0 <= j < |s| && key(s[i]) == key(s[j]) :: s[i] == s[j]
  }

  lemma SameHead<T>(a: seq<T>, b: seq<T>, key: T -> real)
    requires a != [] && b != []
    requires SortedBy(a, key) && SortedBy(b, key) && multiset(a) == multiset(b) && KeyDecides(a, key)
    ensures a[0] == b[0]
  {
    assert a[0] in multiset(b) && b[0] in multiset(a);
    var i :| 0 <= i < |b| && b[i] == a[0];
    var j :| 0 <= j < |a| && a[j] == b[0];
    assert key(b[0]) <= key(b[i]) && key(a[0]) <= key(a[j]);
  }

  lemma TailMultiset<T>(a: seq<T>)
    requires a != []
    ensures multiset(a[1..]) == multiset(a) - multiset{a[0]}
  {
    assert a == [a[0]] + a[1..];
  }

  lemma TailOrdered<T>(a: seq<T>, key: T -> real)
    requires a != [] && SortedBy(a, key)
    ensures SortedBy(a[1..], key)
  {
  }

  lemma TailDecides<T>(a: seq<T>, key: T -> real)
    requires a != [] && KeyDecides(a, key)
    ensures KeyDecides(a[1..], key)
  {
  }

  /** Two sorted arrangements of the same elements are the same when equal keys mean equal elements. */
  lemma {:induction false} SortedUnique<T>(a: seq<T>, b: seq<T>, key: T -> real)
    requires SortedBy(a, key) && SortedBy(b, key) && multiset(a) == multiset(b) && KeyDecides(a, key)
    ensures a == b
  {
    hide SortedBy, KeyDecides;
    SameLength(a, b);
    if a == [] {
    } else {
      SameHead(a, b, key);
      SameTail(a, b);
      TailOrdered(a, key);
      TailOrdered(b, key);
      TailDecides(a, key);
      SortedUnique(a[1..], b[1..], key);
      SameWhole(a, b);
    }
  }

  lemma SameTail<T>(a: seq<T>, b: seq<T>)
    requires a != [] && b != [] && a[0] == b[0] && multiset(a) == multiset(b)
    ensures multiset(a[1..]) == multiset(b[1..])
  {
    TailMultiset(a);
    TailMultiset(b);
  }

  lemma SameWhole<T>(a: seq<T>, b: seq<T>)
    requires a != [] && b != [] && a[0] == b[0] && a[1..] == b[1..]
    ensures a == b
  {
    assert a == [a[0]] + a[1..] && b == [b[0]] + b[1..];
  }

  lemma SameLength<T>(a: seq<T>, b: seq<T>)
    requires multiset(a) == multiset(b)
    ensures |a| == |b|
  {
    assert |multiset(a)| == |a| && |multiset(b)| == |b|;
  }

  lemma PermutedKeyDecides<T>(a: seq<T>, b: seq<T>, key: T -> real)
    requires multiset(a) == multiset(b) && KeyDecides(a, key)
    ensures KeyDecides(b, key)
  {
    forall i, j | 0 <= i < |b| && 0 <= j < |b| && key(b[i]) == key(b[j]) ensures b[i] == b[j] {
      assert b[i] in multiset(a) && b[j] in multiset(a);
      var k :| 0 <= k < |a| && a[k] == b[i];
      var l :| 0 <= l < |a| && a[l] == b[j];
    }
  }

  /** Sorting forgets the order its input came in. */
  lemma SortForgetsOrder<T>(a: seq<T>, b: seq<T>, key: T -> real)
    requires multiset(a) == multiset(b) && KeyDecides(a, key)
    ensures Sort(a, key) == Sort(b, key)
  {
    SortSorts(a, key);
    SortSorts(b, key);
    PermutedKeyDecides(a, Sort(a, key), key);
    SortedUnique(Sort(a, key), Sort(b, key), key);
  }

  function IntKey(x: int): real { x as real }

  function RealKey(x: real): real { x }
}
