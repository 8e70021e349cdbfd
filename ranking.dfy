/**
 * `Array.prototype.sort` with the comparator `(a, b) => b.w - a.w` over
 * (item, weight) pairs: a stable sort by descending weight (ECMAScript
 * requires `sort` to be stable since ES2019).  Both the interest ranking
 * (`Object.entries(...).sort`) and the career ranking (`scored.sort`) use it.
 */
module Ranking {

  /** Weights never increase from left to right. */
  predicate NonIncreasing<T>(s: seq<(T, int)>) {
    forall i, j :: 0 <= i < j < |s| ==> s[j].1 <= s[i].1
  }

  /** The entries of weight w, in their order in s. */
  function WithWeight<T>(s: seq<(T, int)>, w: int): seq<(T, int)> {
    if s == [] then []
    else (if s[0].1 == w then [s[0]] else []) + WithWeight(s[1..], w)
  }

  /** The items of the entries, dropping the weights (`.map(e => e[0])`). */
  function Items<T>(s: seq<(T, int)>): (r: seq<T>)
    ensures |r| == |s| && forall i :: 0 <= i < |s| ==> r[i] == s[i].0
  {
    seq(|s|, i requires 0 <= i < |s| => s[i].0)
  }

  /** Places x in front of the first entry that does not outweigh it. */
  function Insert<T>(x: (T, int), s: seq<(T, int)>): seq<(T, int)> {
    if s == [] || s[0].1 <= x.1 then [x] + s
    else [s[0]] + Insert(x, s[1..])
  }

  /** The stable sort by descending weight. */
  function SortByWeight<T>(s: seq<(T, int)>): (r: seq<(T, int)>)
    ensures NonIncreasing(r)
    ensures multiset(r) == multiset(s)
    ensures forall w :: WithWeight(r, w) == WithWeight(s, w)
  {
    if s == [] then []
    else
      var rest := SortByWeight(s[1..]);
      InsertSorted(s[0], rest);
      InsertPermutes(s[0], rest);
      InsertStable(s[0], rest);
      assert s == [s[0]] + s[1..];
      Insert(s[0], rest)
  }

  lemma {:induction false} InsertSorted<T>(x: (T, int), s: seq<(T, int)>)
    requires NonIncreasing(s)
    ensures NonIncreasing(Insert(x, s))
    ensures |Insert(x, s)| == |s| + 1
    ensures Insert(x, s)[0] == x || (s != [] && Insert(x, s)[0] == s[0])
  {
    if s != [] && s[0].1 > x.1 {
      InsertSorted(x, s[1..]);
    }
  }

  lemma {:induction false} InsertPermutes<T>(x: (T, int), s: seq<(T, int)>)
    ensures multiset(Insert(x, s)) == multiset(s) + multiset{x}
  {
    if s != [] && s[0].1 > x.1 {
      InsertPermutes(x, s[1..]);
      assert s == [s[0]] + s[1..];
    }
  }

  lemma {:induction false} InsertStable<T>(x: (T, int), s: seq<(T, int)>)
    requires NonIncreasing(s)
    ensures forall w :: WithWeight(Insert(x, s), w) == WithWeight([x] + s, w)
  {
    if s == [] || s[0].1 <= x.1 {
    } else {
      InsertStable(x, s[1..]);
      forall w
        ensures WithWeight(Insert(x, s), w) == WithWeight([x] + s, w)
      {
        var y := s[0];
        var ins := Insert(x, s);
        assert ins == [y] + Insert(x, s[1..]);
        assert ins[1..] == Insert(x, s[1..]);
        assert ([x] + s)[1..] == s;
        assert ([x] + s[1..])[1..] == s[1..];
        assert WithWeight(ins, w) == (if y.1 == w then [y] else []) + WithWeight([x] + s[1..], w);
        assert !(x.1 == w && y.1 == w);
      }
    }
  }

  /** Sorting keeps the items, each as often as before. */
  lemma {:induction false} SortKeepsItems<T>(s: seq<(T, int)>)
    ensures multiset(Items(SortByWeight(s))) == multiset(Items(s))
  {
    if s != [] {
      var rest := SortByWeight(s[1..]);
      SortKeepsItems(s[1..]);
      InsertKeepsItems(s[0], rest);
      assert Items(s) == [s[0].0] + Items(s[1..]);
    }
  }

  lemma {:induction false} InsertKeepsItems<T>(x: (T, int), s: seq<(T, int)>)
    ensures multiset(Items(Insert(x, s))) == multiset(Items(s)) + multiset{x.0}
  {
    if s == [] || s[0].1 <= x.1 {
      assert Items([x] + s) == [x.0] + Items(s);
    } else {
      InsertKeepsItems(x, s[1..]);
      assert Items(Insert(x, s)) == [s[0].0] + Items(Insert(x, s[1..]));
      assert Items(s) == [s[0].0] + Items(s[1..]);
    }
  }

  /** In a sorted sequence whose weights are only hi and lo (hi > lo), all
      entries of weight hi come first. */
  lemma {:induction false} TwoWeightsSplit<T>(s: seq<(T, int)>, hi: int, lo: int)
    requires hi > lo && NonIncreasing(s)
    requires forall i :: 0 <= i < |s| ==> s[i].1 == hi || s[i].1 == lo
    ensures s == WithWeight(s, hi) + WithWeight(s, lo)
  {
    if s != [] {
      TwoWeightsSplit(s[1..], hi, lo);
      if s[0].1 == lo {
        NoneHeavier(s[1..], hi, lo);
      }
    }
  }

  lemma {:induction false} NoneHeavier<T>(s: seq<(T, int)>, hi: int, lo: int)
    requires hi > lo && forall i :: 0 <= i < |s| ==> s[i].1 <= lo
    ensures WithWeight(s, hi) == []
  {
    if s != [] {
      NoneHeavier(s[1..], hi, lo);
    }
  }
}
