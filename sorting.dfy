/** The two orderings the application asks its document store for: ascending
    string order (`sort({ word: 1 })`) and descending number order
    (`sort({ flaggedContentAttempts: -1 })`), modelled by one stable insertion sort
    over a total preorder. */
module Sorting {

  ghost predicate IsTotalPreorder<T(!new)>(le: (T, T) -> bool) {
    && (forall a, b :: le(a, b) || le(b, a))
    && (forall a, b, c :: le(a, b) && le(b, c) ==> le(a, c))
  }

  predicate SortedBy<T>(xs: seq<T>, le: (T, T) -> bool) {
    forall i, j :: 0 <= i < j < |xs| ==> le(xs[i], xs[j])
  }

  /** Puts `x` before the first element it is ordered before or with. */
  function Insert<T>(x: T, xs: seq<T>, le: (T, T) -> bool): (r: seq<T>)
    ensures multiset(r) == multiset(xs) + multiset{x}
  {
    if xs == [] || le(x, xs[0]) then [x] + xs
    else
      assert xs == [xs[0]] + xs[1..];
      [xs[0]] + Insert(x, xs[1..], le)
  }

  function SortBy<T>(xs: seq<T>, le: (T, T) -> bool): (r: seq<T>)
    ensures multiset(r) == multiset(xs)
  {
    if xs == [] then []
    else
      assert xs == [xs[0]] + xs[1..];
      Insert(xs[0], SortBy(xs[1..], le), le)
  }

  lemma {:induction false} InsertSorted<T(!new)>(x: T, xs: seq<T>, le: (T, T) -> bool)
    requires IsTotalPreorder(le)
    requires SortedBy(xs, le)
    ensures SortedBy(Insert(x, xs, le), le)
  {
    if xs != [] && !le(x, xs[0]) {
      var tail := Insert(x, xs[1..], le);
      InsertSorted(x, xs[1..], le);
      forall e | e in tail
        ensures le(xs[0], e)
      {
        assert e in multiset(tail);
        if e != x {
          assert e in multiset(xs[1..]);
          var j :| 0 <= j < |xs[1..]| && xs[1..][j] == e;
          assert xs[j + 1] == e;
        }
      }
      SortedCons(xs[0], tail, le);
    }
  }

  /** An element ordered before everything in a sorted sequence can go in front. */
  lemma {:induction false} SortedCons<T>(h: T, tail: seq<T>, le: (T, T) -> bool)
    requires SortedBy(tail, le)
    requires forall e :: e in tail ==> le(h, e)
    ensures SortedBy([h] + tail, le)
  {
    var r := [h] + tail;
    forall i, j | 0 <= i < j < |r|
      ensures le(r[i], r[j])
    {
      if i == 0 {
        assert r[j] == tail[j - 1] && tail[j - 1] in tail;
      } else {
        assert r[i] == tail[i - 1] && r[j] == tail[j - 1];
      }
    }
  }

  /** Sorting yields an ordered permutation of its input. */
  lemma {:induction false} SortBySorted<T(!new)>(xs: seq<T>, le: (T, T) -> bool)
    requires IsTotalPreorder(le)
    ensures SortedBy(SortBy(xs, le), le)
    ensures multiset(SortBy(xs, le)) == multiset(xs)
  {
    if xs != [] {
      SortBySorted(xs[1..], le);
      InsertSorted(xs[0], SortBy(xs[1..], le), le);
    }
  }

  /** Lexicographic order on characters, which is the byte order of their UTF-8
      encoding: the order the document store sorts strings in. */
  predicate LexLe(a: string, b: string) {
    |a| == 0 || (|b| > 0 && (a[0] < b[0] || (a[0] == b[0] && LexLe(a[1..], b[1..]))))
  }

  lemma {:induction false} LexTotal(a: string, b: string)
    ensures LexLe(a, b) || LexLe(b, a)
  {
    if |a| > 0 && |b| > 0 && a[0] == b[0] {
      LexTotal(a[1..], b[1..]);
    }
  }

  lemma {:induction false} LexTransitive(a: string, b: string, c: string)
    requires LexLe(a, b) && LexLe(b, c)
    ensures LexLe(a, c)
  {
    if |a| > 0 && a[0] == b[0] && b[0] == c[0] {
      LexTransitive(a[1..], b[1..], c[1..]);
    }
  }

  lemma {:induction false} LexAntisymmetric(a: string, b: string)
    requires LexLe(a, b) && LexLe(b, a)
    ensures a == b
  {
    if |a| > 0 {
      LexAntisymmetric(a[1..], b[1..]);
      assert a == [a[0]] + a[1..] && b == [b[0]] + b[1..];
    }
  }

  function StringOrder(): (le: (string, string) -> bool)
    ensures forall a, b :: le(a, b) == LexLe(a, b)
  {
    (a: string, b: string) => LexLe(a, b)
  }

  lemma StringOrderIsTotalPreorder()
    ensures IsTotalPreorder(StringOrder())
  {
    var le := StringOrder();
    forall a, b
      ensures le(a, b) || le(b, a)
    {
      LexTotal(a, b);
    }
    forall a, b, c | le(a, b) && le(b, c)
      ensures le(a, c)
    {
      LexTransitive(a, b, c);
    }
  }
}
