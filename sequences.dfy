/**
 * Sequence vocabulary shared by the engine: duplicate-freedom, first
 * occurrences, the insertion order of a JavaScript `Set` or object, and
 * `Array.prototype.slice(0, end)`.
 */
module Sequences {

  /** No element occurs twice. */
  predicate Distinct<T(==)>(s: seq<T>) {
    forall i, j :: 0 <= i < j < |s| ==> s[i] != s[j]
  }

  /** Position of the first occurrence of x. */
  function FirstIndex<T(==)>(s: seq<T>, x: T): (k: nat)
    requires x in s
    ensures k < |s| && s[k] == x && x !in s[..k]
  {
    if s[0] == x then 0 else 1 + FirstIndex(s[1..], x)
  }

  lemma FirstIndexOfExtension<T>(s: seq<T>, y: T, x: T)
    requires x in s
    ensures x in s + [y] && FirstIndex(s + [y], x) == FirstIndex(s, x)
  {
    var k := FirstIndex(s, x);
    var t := s + [y];
    assert t[..k] == s[..k];
    FirstIndexUnique(t, x, k);
  }

  lemma FirstIndexUnique<T>(s: seq<T>, x: T, k: nat)
    requires k < |s| && s[k] == x && x !in s[..k]
    ensures FirstIndex(s, x) == k
  {
  }

  /** The elements of s without repetitions, each at its first occurrence:
      the order in which a JavaScript `Set` (or object) built from s keeps
      its members. */
  function DistinctInOrder<T(==)>(s: seq<T>): seq<T> {
    if s == [] then []
    else
      var d := DistinctInOrder(s[..|s| - 1]);
      if s[|s| - 1] in d then d else d + [s[|s| - 1]]
  }

  /** DistinctInOrder keeps every element once, drops nothing, and lists the
      elements in the order of their first occurrences. */
  lemma {:induction false} DistinctInOrderSpec<T>(s: seq<T>)
    ensures var r := DistinctInOrder(s);
      && Distinct(r)
      && (forall x | x in r :: x in s)
      && (forall x | x in s :: x in r)
      && (forall i, j :: 0 <= i < j < |r| ==> FirstIndex(s, r[i]) < FirstIndex(s, r[j]))
  {
    if s != [] {
      var init := s[..|s| - 1];
      var x := s[|s| - 1];
      var d := DistinctInOrder(init);
      DistinctInOrderSpec(init);
      assert s == init + [x];
      FirstIndicesKept(init, x, d);
      if x !in d {
        FirstIndexUnique(s, x, |s| - 1);
      }
    }
  }

  lemma DistinctInOrderHas<T>(s: seq<T>, x: T)
    ensures x in DistinctInOrder(s) <==> x in s
  {
    DistinctInOrderSpec(s);
  }

  lemma DistinctInOrderSnoc<T>(s: seq<T>, x: T)
    ensures DistinctInOrder(s + [x]) == if x in s then DistinctInOrder(s) else DistinctInOrder(s) + [x]
  {
    assert (s + [x])[..|s|] == s;
    DistinctInOrderHas(s, x);
  }

  /** A duplicate-free sequence is its own first-occurrence order. */
  lemma {:induction false} DistinctInOrderOfDistinct<T>(s: seq<T>)
    requires Distinct(s)
    ensures DistinctInOrder(s) == s
  {
    if s != [] {
      var init := s[..|s| - 1];
      DistinctInOrderOfDistinct(init);
      assert s == init + [s[|s| - 1]];
    }
  }

  /** Continuing a first-occurrence order with more elements gives the
      first-occurrence order of the whole. */
  lemma {:induction false} DistinctInOrderAppend<T>(s: seq<T>, t: seq<T>)
    ensures DistinctInOrder(DistinctInOrder(s) + t) == DistinctInOrder(s + t)
  {
    if t == [] {
      DistinctInOrderSpec(s);
      DistinctInOrderOfDistinct(DistinctInOrder(s));
      assert DistinctInOrder(s) + t == DistinctInOrder(s);
      assert s + t == s;
    } else {
      var init := t[..|t| - 1];
      DistinctInOrderAppend(s, init);
      assert (DistinctInOrder(s) + t)[..|DistinctInOrder(s) + t| - 1] == DistinctInOrder(s) + init;
      assert (s + t)[..|s + t| - 1] == s + init;
    }
  }

  lemma FirstIndicesKept<T>(init: seq<T>, x: T, d: seq<T>)
    requires forall y :: y in d ==> y in init
    ensures forall y :: y in d ==> y in init + [x] && FirstIndex(init + [x], y) == FirstIndex(init, y)
  {
    forall y | y in d
      ensures y in init + [x] && FirstIndex(init + [x], y) == FirstIndex(init, y)
    {
      FirstIndexOfExtension(init, x, y);
    }
  }

  /** In a duplicate-free sequence every value occurs at most once. */
  lemma {:induction false} DistinctOccursOnce<T>(s: seq<T>, x: T)
    requires Distinct(s)
    ensures multiset(s)[x] <= 1
  {
    if s != [] {
      assert s == [s[0]] + s[1..];
      DistinctOccursOnce(s[1..], x);
      if s[0] == x {
        assert x !in s[1..];
      }
    }
  }

  /** A rearrangement of a duplicate-free sequence is duplicate-free. */
  lemma DistinctPermutation<T>(a: seq<T>, b: seq<T>)
    requires multiset(a) == multiset(b) && Distinct(b)
    ensures Distinct(a)
  {
    forall i, j | 0 <= i < j < |a|
      ensures a[i] != a[j]
    {
      var x := a[i];
      DistinctOccursOnce(b, x);
      assert a == a[..j] + a[j..];
      assert a[..j][i] == x;
      assert a[j..][0] == a[j];
      assert multiset(a)[x] == multiset(a[..j])[x] + multiset(a[j..])[x];
    }
  }

  /** Number of occurrences of x. */
  function Count<T(==)>(s: seq<T>, x: T): nat {
    if s == [] then 0 else Count(s[..|s| - 1], x) + (if s[|s| - 1] == x then 1 else 0)
  }

  /** `s.slice(0, end)`: a negative end counts back from the end of s. */
  function SliceTo<T>(s: seq<T>, end: int): seq<T> {
    var stop := if end < 0 then (if |s| + end > 0 then |s| + end else 0)
                else (if end < |s| then end else |s|);
    s[..stop]
  }

  /** The first n elements, or all of them when there are fewer. */
  function Take<T>(s: seq<T>, n: nat): (r: seq<T>)
    ensures |r| == if n < |s| then n else |s|
    ensures r == s[..|r|]
  {
    if n < |s| then s[..n] else s
  }

  /** Removing the element at position i takes one copy of it out of the
      multiset. */
  lemma RemoveAt<T>(ys: seq<T>, i: nat)
    requires i < |ys|
    ensures ys == ys[..i] + [ys[i]] + ys[i + 1..]
    ensures multiset(ys[..i] + ys[i + 1..]) == multiset(ys) - multiset{ys[i]}
  {
    assert ys == ys[..i] + [ys[i]] + ys[i + 1..];
    calc {
      multiset(ys) - multiset{ys[i]};
      multiset(ys[..i] + [ys[i]] + ys[i + 1..]) - multiset{ys[i]};
      multiset(ys[..i]) + multiset{ys[i]} + multiset(ys[i + 1..]) - multiset{ys[i]};
      multiset(ys[..i]) + multiset(ys[i + 1..]);
      multiset(ys[..i] + ys[i + 1..]);
    }
  }

  /** The last element of xs stands at some position i of any rearrangement
      ys, and what remains of both once it is removed is again a
      rearrangement: the step of every induction over permutations. */
  lemma PermutationSplit<T>(xs: seq<T>, ys: seq<T>) returns (i: nat)
    requires xs != [] && multiset(xs) == multiset(ys)
    ensures i < |ys| && ys[i] == xs[|xs| - 1]
    ensures ys == ys[..i] + [ys[i]] + ys[i + 1..]
    ensures multiset(xs[..|xs| - 1]) == multiset(ys[..i] + ys[i + 1..])
  {
    var n := |xs| - 1;
    assert xs[n] in multiset(ys);
    var k :| 0 <= k < |ys| && ys[k] == xs[n];
    i := k;
    RemoveAt(xs, n);
    assert xs[..n] + xs[n + 1..] == xs[..n];
    RemoveAt(ys, i);
  }
}
