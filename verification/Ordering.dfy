/** Sorting by a two-part key: the first part descending, ties by the second ascending. */
module Ordering {

  type Key = (int, real)

  predicate Before(a: Key, b: Key) {
    a.0 > b.0 || (a.0 == b.0 && a.1 < b.1)
  }

  ghost predicate Sorted<T>(s: seq<T>, key: T -> Key) {
    forall i, j :: 0 <= i < j < |s| ==> !Before(key(s[j]), key(s[i]))
  }

  ghost predicate Distinct<T>(s: seq<T>) {
    forall i, j :: 0 <= i < j < |s| ==> s[i] != s[j]
  }

  ghost function Without<T>(s: seq<T>, j: nat): (r: seq<T>)
    requires j < |s|
    ensures |r| == |s| - 1
  {
    s[..j] + s[j + 1..]
  }

  lemma WithoutBag<T>(s: seq<T>, j: nat)
    requires j < |s|
    ensures multiset(s) == multiset{s[j]} + multiset(Without(s, j))
  {
    assert s == s[..j] + [s[j]] + s[j + 1..];
  }

  lemma WithoutHead<T>(s: seq<T>)
    requires s != []
    ensures Without(s, 0) == s[1..]
  {
  }

  /** Two arrangements of one collection: the head of one stands somewhere in the other. */
  lemma HeadElsewhere<T>(s: seq<T>, t: seq<T>) returns (j: nat)
    requires s != [] && multiset(s) == multiset(t)
    ensures j < |t| && t[j] == s[0] && multiset(s[1..]) == multiset(Without(t, j))
  {
    hide Without;
    assert s[0] in multiset(t);
    j :| 0 <= j < |t| && t[j] == s[0];
    WithoutBag(t, j);
    assert s == [s[0]] + s[1..];
    assert multiset(s[1..]) == multiset(s) - multiset{s[0]} && multiset(Without(t, j)) == multiset(t) - multiset{s[0]};
  }

  /** Insert before the first element that does not come strictly earlier: equal keys keep their order. */
  function Insert<T>(x: T, s: seq<T>, key: T -> Key): (r: seq<T>)
    ensures multiset(r) == multiset{x} + multiset(s)
  {
    if s == [] || !Before(key(s[0]), key(x)) then [x] + s
    else
      assert s == [s[0]] + s[1..];
      [s[0]] + Insert(x, s[1..], key)
  }

  lemma {:induction false} InsertSorted<T>(x: T, s: seq<T>, key: T -> Key)
    requires Sorted(s, key)
    ensures Sorted(Insert(x, s, key), key)
  {
    if s != [] && Before(key(s[0]), key(x)) {
      var r := Insert(x, s[1..], key);
      InsertSorted(x, s[1..], key);
      forall y | y in r ensures !Before(key(y), key(s[0])) {
        assert y in multiset(r);
        assert y == x || y in s[1..];
      }
    }
  }

  function SortBy<T>(s: seq<T>, key: T -> Key): (r: seq<T>)
    ensures multiset(r) == multiset(s) && Sorted(r, key)
  {
    if s == [] then []
    else
      InsertSorted(s[0], SortBy(s[1..], key), key);
      assert s == [s[0]] + s[1..];
      Insert(s[0], SortBy(s[1..], key), key)
  }

  /** A collection has one sorted arrangement when its keys tell its elements apart. */
  lemma {:induction false} SortedUnique<T>(s: seq<T>, t: seq<T>, key: T -> Key)
    requires multiset(s) == multiset(t) && Sorted(s, key) && Sorted(t, key)
    requires forall x, y :: x in s && y in s && key(x) == key(y) ==> x == y
    ensures s == t
    decreases |s|
  {
    if s == [] {
      assert |multiset(t)| == 0;
    } else {
      SameHead(s, t, key);
      assert s == [s[0]] + s[1..] && t == [t[0]] + t[1..];
      assert multiset(s[1..]) == multiset(s) - multiset{s[0]} == multiset(t[1..]);
      SortedUnique(s[1..], t[1..], key);
    }
  }

  lemma SameHead<T>(s: seq<T>, t: seq<T>, key: T -> Key)
    requires s != [] && multiset(s) == multiset(t) && Sorted(s, key) && Sorted(t, key)
    requires forall x, y :: x in s && y in s && key(x) == key(y) ==> x == y
    ensures t != [] && s[0] == t[0]
  {
    assert s[0] in multiset(t);
    var j :| 0 <= j < |t| && t[j] == s[0];
    assert t[0] in multiset(s);
    var i :| 0 <= i < |s| && s[i] == t[0];
    assert !Before(key(s[i]), key(s[0])) && !Before(key(t[j]), key(t[0]));
  }

  lemma {:induction false} CountInDistinct<T>(s: seq<T>, x: T)
    requires Distinct(s)
    ensures multiset(s)[x] == if x in s then 1 else 0
  {
    if s != [] {
      CountInDistinct(s[1..], x);
      assert s == [s[0]] + s[1..];
    }
  }

  /** Without repetitions the members alone settle it. */
  lemma DistinctUnique<T>(s: seq<T>, t: seq<T>, key: T -> Key)
    requires Distinct(s) && Distinct(t) && Sorted(s, key) && Sorted(t, key)
    requires forall x :: x in s <==> x in t
    requires forall x, y :: x in s && y in s && key(x) == key(y) ==> x == y
    ensures s == t
  {
    forall x ensures multiset(s)[x] == multiset(t)[x] {
      CountInDistinct(s, x);
      CountInDistinct(t, x);
    }
    SortedUnique(s, t, key);
  }
}
