/**
 * Searches, counts and filters over sequences: the generator expressions and list
 * comprehensions with a condition that the services use over their rows.
 */
module Seqs {
  import opened Wrappers

  /** Some element satisfies `p` (the `for … : if …: return True` searches). */
  function Any<T>(s: seq<T>, p: T -> bool): bool {
    if s == [] then false else p(s[0]) || Any(s[1..], p)
  }

  lemma {:induction false} AnyIff<T>(s: seq<T>, p: T -> bool)
    ensures Any(s, p) <==> exists x :: x in s && p(x)
  {
    if s != [] {
      AnyIff(s[1..], p);
      assert s == [s[0]] + s[1..];
      assert forall x :: x in s <==> x == s[0] || x in s[1..];
    }
  }

  /** The number of elements satisfying `p` (a `count += 1` loop). */
  function Count<T>(s: seq<T>, p: T -> bool): (n: nat)
    ensures n <= |s|
  {
    if s == [] then 0
    else Count(s[..|s| - 1], p) + (if p(s[|s| - 1]) then 1 else 0)
  }

  /** The elements satisfying `p`, in order (a list comprehension with a condition). */
  function Filter<T>(s: seq<T>, p: T -> bool): (r: seq<T>)
    ensures |r| <= |s|
  {
    if s == [] then []
    else Filter(s[..|s| - 1], p) + (if p(s[|s| - 1]) then [s[|s| - 1]] else [])
  }

  lemma {:induction false} FilterMembers<T>(s: seq<T>, p: T -> bool)
    ensures forall x :: x in Filter(s, p) <==> x in s && p(x)
  {
    if s != [] {
      var n := |s| - 1;
      FilterMembers(s[..n], p);
      assert s == s[..n] + [s[n]];
      assert forall x :: x in s <==> x in s[..n] || x == s[n];
    }
  }

  /** The positions in `[lo, upto)` whose element satisfies `p`, in ascending order. */
  function IndicesWhere<T>(s: seq<T>, p: T -> bool, lo: nat, upto: nat): (m: seq<nat>)
    requires upto <= |s|
    ensures forall k :: 0 <= k < |m| ==> lo <= m[k] < upto && p(s[m[k]])
    ensures forall k, l :: 0 <= k < l < |m| ==> m[k] < m[l]
    ensures forall i :: lo <= i < upto && p(s[i]) ==> i in m
  {
    if upto <= lo then []
    else IndicesWhere(s, p, lo, upto - 1) + (if p(s[upto - 1]) then [upto - 1] else [])
  }

  /** The first position from `from` on whose element satisfies `p` (a `for …: if …: return i` search). */
  function FirstFrom<T>(s: seq<T>, p: T -> bool, from: nat): (r: Option<nat>)
    requires from <= |s|
    ensures r.Some? ==> from <= r.value < |s| && p(s[r.value])
    ensures r.Some? ==> forall j :: from <= j < r.value ==> !p(s[j])
    ensures r.None? <==> forall j :: from <= j < |s| ==> !p(s[j])
    decreases |s| - from
  {
    if from == |s| then None
    else if p(s[from]) then Some(from)
    else FirstFrom(s, p, from + 1)
  }
}
