/**
 Index sorting in descending order of value: the `argsort()[::-1]` step of
 QR.py, QR_eig. The library's tie order is unspecified, so ties here are
 broken by one particular insertion order, and the facts proved below (the
 values are non-increasing, the indices are a permutation) hold for any order.
 */
module Sorting {

  /** The indices 0, 1, ..., n - 1. */
  function Range(n: nat): (r: seq<nat>)
    ensures |r| == n && forall k :: 0 <= k < n ==> r[k] == k
  {
    seq(n, k requires 0 <= k < n => k)
  }

  /** Every index of p is below n. */
  predicate InRange(p: seq<nat>, n: nat)
  {
    forall k :: 0 <= k < |p| ==> p[k] < n
  }

  /** The entries of d at the indices p, in the order of p. */
  function Values<T>(d: seq<T>, p: seq<nat>): (v: seq<T>)
    requires InRange(p, |d|)
    ensures |v| == |p| && forall k :: 0 <= k < |p| ==> v[k] == d[p[k]]
  {
    seq(|p|, k requires 0 <= k < |p| => d[p[k]])
  }

  /** The indices p list values of d from largest to smallest. */
  predicate SortedDesc(d: seq<real>, p: seq<nat>)
    requires InRange(p, |d|)
  {
    forall a, b :: 0 <= a < b < |p| ==> d[p[a]] >= d[p[b]]
  }

  /** p holds each index below n exactly once. */
  predicate IsPermutation(p: seq<nat>, n: nat)
  {
    multiset(p) == multiset(Range(n))
  }

  /** The position at which index i goes into p, sorted descending: after every entry whose value is at least d[i]. */
  function InsertPosition(d: seq<real>, p: seq<nat>, i: nat): (k: nat)
    requires InRange(p, |d|) && i < |d| && SortedDesc(d, p)
    ensures k <= |p|
    ensures forall a :: 0 <= a < k ==> d[p[a]] >= d[i]
    ensures forall a :: k <= a < |p| ==> d[p[a]] < d[i]
    decreases |p|
  {
    if |p| == 0 || d[p[|p| - 1]] >= d[i] then |p|
    else InsertPosition(d, p[..|p| - 1], i)
  }

  /** p with index i inserted at its place in descending order. */
  function Insert(d: seq<real>, p: seq<nat>, i: nat): (r: seq<nat>)
    requires InRange(p, |d|) && i < |d| && SortedDesc(d, p)
    ensures InRange(r, |d|) && multiset(r) == multiset(p) + multiset{i}
    ensures SortedDesc(d, r)
  {
    var k := InsertPosition(d, p, i);
    InsertAt(d, p, i, k);
    p[..k] + [i] + p[k..]
  }

  /** Inserting i at a position k that splits p into values at least d[i] and values below it keeps p sorted. */
  lemma {:induction false} InsertAt(d: seq<real>, p: seq<nat>, i: nat, k: nat)
    requires InRange(p, |d|) && i < |d| && SortedDesc(d, p) && k <= |p|
    requires forall a :: 0 <= a < k ==> d[p[a]] >= d[i]
    requires forall a :: k <= a < |p| ==> d[p[a]] < d[i]
    ensures var r := p[..k] + [i] + p[k..];
      InRange(r, |d|) && multiset(r) == multiset(p) + multiset{i} && SortedDesc(d, r)
  {
    var r := p[..k] + [i] + p[k..];
    assert p == p[..k] + p[k..];
    assert multiset(r) == multiset(p[..k]) + multiset{i} + multiset(p[k..]);
    forall a | 0 <= a < |r|
      ensures r[a] == if a < k then p[a] else if a == k then i else p[a - 1]
    {
    }
    forall a, b | 0 <= a < b < |r|
      ensures d[r[a]] >= d[r[b]]
    {
      if b == k {
        assert r[a] == p[a];
      } else if a == k {
        assert r[b] == p[b - 1];
      } else {
        var a' := if a < k then a else a - 1;
        var b' := if b < k then b else b - 1;
        assert r[a] == p[a'] && r[b] == p[b'] && a' < b';
      }
    }
  }

  /** The indices below n sorted by descending value of d, built by insertion. */
  function ArgsortDesc(d: seq<real>, n: nat): (p: seq<nat>)
    requires n <= |d|
    ensures InRange(p, |d|) && IsPermutation(p, n) && SortedDesc(d, p)
  {
    if n == 0 then []
    else
      var p := Insert(d, ArgsortDesc(d, n - 1), n - 1);
      assert Range(n) == Range(n - 1) + [n - 1];
      p
  }

  // ---------------------------------------------------------------------------
  // Facts about any descending permutation

  /** Values along a descending index list are non-increasing. */
  lemma {:induction false} SortedValues(d: seq<real>, p: seq<nat>)
    requires InRange(p, |d|) && SortedDesc(d, p)
    ensures var v := Values(d, p); forall a, b :: 0 <= a < b < |v| ==> v[a] >= v[b]
  {
  }

  lemma {:induction false} ValuesAppend<T>(d: seq<T>, p: seq<nat>, q: seq<nat>)
    requires InRange(p, |d|) && InRange(q, |d|)
    ensures InRange(p + q, |d|) && Values(d, p + q) == Values(d, p) + Values(d, q)
  {
  }

  lemma {:induction false} ValuesOfRange<T>(d: seq<T>)
    ensures InRange(Range(|d|), |d|) && Values(d, Range(|d|)) == d
  {
  }

  /** The values of d at a permutation of its indices are a rearrangement of d. */
  lemma {:induction false} PermutedValues<T>(d: seq<T>, p: seq<nat>)
    requires InRange(p, |d|) && IsPermutation(p, |d|)
    ensures multiset(Values(d, p)) == multiset(d)
  {
    ValuesOfRange(d);
    SameIndicesSameValues(d, p, Range(|d|));
  }

  /** Index lists holding the same indices pick the same multiset of values. */
  lemma {:induction false} SameIndicesSameValues<T>(d: seq<T>, p: seq<nat>, q: seq<nat>)
    requires InRange(p, |d|) && InRange(q, |d|) && multiset(p) == multiset(q)
    ensures multiset(Values(d, p)) == multiset(Values(d, q))
    decreases |p|
  {
    if |p| > 0 {
      var n := |p| - 1;
      var i := p[n];
      assert i in multiset(q);
      var k :| 0 <= k < |q| && q[k] == i;
      RemoveAt(d, p, n);
      RemoveAt(d, q, k);
      SameIndicesSameValues(d, p[..n] + p[n + 1..], q[..k] + q[k + 1..]);
      assert d[i] in multiset(Values(d, p)) by { assert Values(d, p)[n] == d[i]; }
      assert d[i] in multiset(Values(d, q)) by { assert Values(d, q)[k] == d[i]; }
      RestoreOne(multiset(Values(d, p)), multiset(Values(d, q)), d[i]);
    } else {
      assert |q| == |multiset(q)| == 0;
    }
  }

  /** Taking out the entry at position k takes one copy of it out of the indices and of the values. */
  lemma {:induction false} RemoveAt<T>(d: seq<T>, q: seq<nat>, k: nat)
    requires InRange(q, |d|) && k < |q|
    ensures var rest := q[..k] + q[k + 1..];
      InRange(rest, |d|) && multiset(rest) == multiset(q) - multiset{q[k]}
      && multiset(Values(d, rest)) == multiset(Values(d, q)) - multiset{d[q[k]]}
  {
    var rest := q[..k] + q[k + 1..];
    assert q == q[..k] + [q[k]] + q[k + 1..];
    assert multiset(q) == multiset(q[..k]) + multiset{q[k]} + multiset(q[k + 1..]);
    ValuesAppend(d, q[..k], [q[k]]);
    ValuesAppend(d, q[..k] + [q[k]], q[k + 1..]);
    ValuesAppend(d, q[..k], q[k + 1..]);
    var v := Values(d, q[..k]);
    var w := Values(d, q[k + 1..]);
    assert Values(d, q) == v + [d[q[k]]] + w;
    assert multiset(Values(d, q)) == multiset(v) + multiset{d[q[k]]} + multiset(w);
  }

  /** Two multisets that both hold a and agree once one copy of a is taken out are equal. */
  lemma {:induction false} RestoreOne<T>(x: multiset<T>, y: multiset<T>, a: T)
    requires a in x && a in y && x - multiset{a} == y - multiset{a}
    ensures x == y
  {
    assert x == (x - multiset{a}) + multiset{a};
    assert y == (y - multiset{a}) + multiset{a};
  }
}
