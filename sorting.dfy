/**
 * Ordering rows by an integer column, as the `ORDER BY <column> ASC` clauses of the queries and
 * Python's stable `list.sort(key=...)` do: elements with equal keys keep their input order.
 */
module Sorting {
  predicate SortedBy<T>(s: seq<T>, key: T -> int) {
    forall i, j :: 0 <= i < j < |s| ==> key(s[i]) <= key(s[j])
  }

  /** A key no larger than every key of a sorted sequence can go in front of it. */
  lemma ConsSorted<T>(y: T, s: seq<T>, key: T -> int)
    requires SortedBy(s, key)
    requires forall k :: 0 <= k < |s| ==> key(y) <= key(s[k])
    ensures SortedBy([y] + s, key)
  {
    var r := [y] + s;
    forall i, j | 0 <= i < j < |r|
      ensures key(r[i]) <= key(r[j])
    {
      assert r[j] == s[j - 1];
      if i > 0 {
        assert r[i] == s[i - 1];
      }
    }
  }

  /** Insert an element before the first element whose key is not smaller. */
  function InsertBy<T>(x: T, s: seq<T>, key: T -> int): (r: seq<T>)
    requires SortedBy(s, key)
    ensures SortedBy(r, key)
    ensures forall k :: 0 <= k < |r| ==> r[k] == x || r[k] in s
    ensures multiset(r) == multiset(s) + multiset{x}
  {
    if s == [] then [x]
    else if key(x) <= key(s[0]) then
      ConsSorted(x, s, key);
      [x] + s
    else
      var rest := InsertBy(x, s[1..], key);
      KeepHead(x, s, rest, key);
      [s[0]] + rest
  }

  /** Putting the head of `s` back in front of `x` inserted into the tail keeps the order and the elements. */
  lemma KeepHead<T>(x: T, s: seq<T>, rest: seq<T>, key: T -> int)
    requires SortedBy(s, key) && s != [] && key(x) > key(s[0])
    requires SortedBy(rest, key)
    requires forall k :: 0 <= k < |rest| ==> rest[k] == x || rest[k] in s[1..]
    requires multiset(rest) == multiset(s[1..]) + multiset{x}
    ensures SortedBy([s[0]] + rest, key)
    ensures forall k :: 0 <= k < |[s[0]] + rest| ==> ([s[0]] + rest)[k] == x || ([s[0]] + rest)[k] in s
    ensures multiset([s[0]] + rest) == multiset(s) + multiset{x}
  {
    BoundDrawn(s[0], x, s[1..], rest, key);
    ConsSorted(s[0], rest, key);
    assert s == [s[0]] + s[1..];
    assert multiset([s[0]] + rest) == multiset{s[0]} + multiset(rest);
  }

  /** A lower bound of `x` and of every element of `t` bounds every element drawn from them. */
  lemma BoundDrawn<T>(y: T, x: T, t: seq<T>, r: seq<T>, key: T -> int)
    requires key(y) <= key(x)
    requires forall k :: 0 <= k < |t| ==> key(y) <= key(t[k])
    requires forall k :: 0 <= k < |r| ==> r[k] == x || r[k] in t
    ensures forall k :: 0 <= k < |r| ==> key(y) <= key(r[k])
  {
    forall k | 0 <= k < |r|
      ensures key(y) <= key(r[k])
    {
      if r[k] != x {
        var i :| 0 <= i < |t| && t[i] == r[k];
      }
    }
  }

  /** A sorted permutation of `s`, by insertion from the back, so equal keys keep their order. */
  function SortBy<T>(s: seq<T>, key: T -> int): (r: seq<T>)
    ensures SortedBy(r, key)
    ensures multiset(r) == multiset(s)
    ensures |r| == |s|
  {
    if s == [] then []
    else
      assert s == [s[0]] + s[1..];
      InsertBy(s[0], SortBy(s[1..], key), key)
  }

  /** Sorting keeps exactly the elements it was given. */
  lemma SortMembers<T>(s: seq<T>, key: T -> int)
    ensures forall x :: x in SortBy(s, key) <==> x in s
  {
    var r := SortBy(s, key);
    forall x
      ensures x in r <==> x in s
    {
      assert x in r <==> x in multiset(r);
      assert x in s <==> x in multiset(s);
    }
  }

  /** The elements of `s` whose key is `k`, in their order in `s`. */
  function WithKey<T>(s: seq<T>, key: T -> int, k: int): (r: seq<T>)
    ensures forall i :: 0 <= i < |r| ==> key(r[i]) == k
    ensures |r| <= |s|
  {
    if s == [] then []
    else
      var head := if key(s[0]) == k then [s[0]] else [];
      head + WithKey(s[1..], key, k)
  }

  /** Filtering a sequence with one more element in front. */
  lemma WithKeyCons<T>(a: T, t: seq<T>, key: T -> int, k: int)
    ensures key(a) == k ==> WithKey([a] + t, key, k) == [a] + WithKey(t, key, k)
    ensures key(a) != k ==> WithKey([a] + t, key, k) == WithKey(t, key, k)
  {
    assert ([a] + t)[1..] == t;
  }

  /** Where `InsertBy` puts the element: in front, or behind the first element. */
  lemma InsertByCases<T>(x: T, s: seq<T>, key: T -> int)
    requires SortedBy(s, key)
    ensures s == [] || key(x) <= key(s[0]) ==> InsertBy(x, s, key) == [x] + s
    ensures s != [] && key(x) > key(s[0]) ==>
      SortedBy(s[1..], key) && InsertBy(x, s, key) == [s[0]] + InsertBy(x, s[1..], key)
  {
    if s == [] {
      assert [x] + s == [x];
    }
  }

  /** Inserting an element puts it in front of the elements of a sorted sequence with its key. */
  lemma {:induction false} InsertWithKey<T>(x: T, s: seq<T>, key: T -> int, k: int)
    requires SortedBy(s, key)
    ensures key(x) == k ==> WithKey(InsertBy(x, s, key), key, k) == [x] + WithKey(s, key, k)
    ensures key(x) != k ==> WithKey(InsertBy(x, s, key), key, k) == WithKey(s, key, k)
  {
    InsertByCases(x, s, key);
    if s == [] || key(x) <= key(s[0]) {
      WithKeyCons(x, s, key, k);
    } else {
      var rest := InsertBy(x, s[1..], key);
      InsertWithKey(x, s[1..], key, k);
      WithKeyCons(s[0], rest, key, k);
      WithKeyCons(s[0], s[1..], key, k);
      assert [s[0]] + s[1..] == s;
      if key(x) == k {
        assert key(s[0]) != k;
      }
    }
  }

  /** Sorting is stable: for every key, the elements with that key keep their input order. */
  lemma {:induction false} SortStable<T>(s: seq<T>, key: T -> int, k: int)
    ensures WithKey(SortBy(s, key), key, k) == WithKey(s, key, k)
  {
    if s != [] {
      SortStable(s[1..], key, k);
      InsertWithKey(s[0], SortBy(s[1..], key), key, k);
      WithKeyCons(s[0], s[1..], key, k);
      assert [s[0]] + s[1..] == s;
    }
  }

  /** Two elements with equal keys, given in that order, come out in that order. */
  lemma TiesKeepOrder<T>(a: T, b: T, key: T -> int)
    requires key(a) == key(b)
    ensures SortBy([a, b], key) == [a, b]
  {
    assert [a, b][1..] == [b];
    assert [b][1..] == [];
  }
}
