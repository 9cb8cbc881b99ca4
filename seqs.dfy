/** Sequence helpers for the stores' natural order: distinct keys, removal of one
    key, and the first element a filter selects (what `findOne` returns). */
module Seqs {
  import opened Wrappers

  predicate Distinct<T(==)>(xs: seq<T>) {
    forall i, j :: 0 <= i < j < |xs| ==> xs[i] != xs[j]
  }

  /** `xs` with every occurrence of `x` removed, the rest in order. */
  function Without<T(==, !new)>(xs: seq<T>, x: T): (r: seq<T>)
    ensures r == Filter(xs, (y: T) => y != x)
    ensures forall y :: y in r <==> y in xs && y != x
    ensures Distinct(xs) ==> Distinct(r)
    ensures x !in xs ==> r == xs
  {
    var r := if xs == [] then [] else if xs[0] == x then Without(xs[1..], x) else [xs[0]] + Without(xs[1..], x);
    assert r == Filter(xs, (y: T) => y != x);
    FilterProperties(xs, (y: T) => y != x);
    if x !in xs then FilterAll(xs, (y: T) => y != x); r else r
  }

  /** The index of the first element that satisfies `p`. */
  function FirstIndex<T>(xs: seq<T>, p: T -> bool): (r: Option<nat>)
    ensures r.Some? ==> r.value < |xs| && p(xs[r.value])
    ensures r.Some? ==> forall i :: 0 <= i < r.value ==> !p(xs[i])
    ensures r.None? <==> forall i :: 0 <= i < |xs| ==> !p(xs[i])
  {
    if xs == [] then None
    else if p(xs[0]) then Some(0)
    else match FirstIndex(xs[1..], p)
      case None => None
      case Some(k) => Some(k + 1)
  }

  /** The first element that satisfies `p`, if any. */
  function FindFirst<T>(xs: seq<T>, p: T -> bool): (r: Option<T>)
    ensures r.Some? ==> r.value in xs && p(r.value)
    ensures r.None? <==> forall i :: 0 <= i < |xs| ==> !p(xs[i])
  {
    match FirstIndex(xs, p)
    case None => None
    case Some(k) => Some(xs[k])
  }

  /** When the element at `k` is the first that satisfies `p`, it is found. */
  lemma {:induction false} FindFirstIsFirst<T>(xs: seq<T>, p: T -> bool, k: nat)
    requires k < |xs| && p(xs[k])
    requires forall i :: 0 <= i < k ==> !p(xs[i])
    ensures FindFirst(xs, p) == Some(xs[k])
  {
    var j := FirstIndex(xs, p);
    assert j.Some?;
    assert j.value == k;
  }

  /** The elements that satisfy `p`, in their order. */
  function Filter<T>(xs: seq<T>, p: T -> bool): (r: seq<T>)
    ensures |r| <= |xs|
  {
    if xs == [] then []
    else (if p(xs[0]) then [xs[0]] else []) + Filter(xs[1..], p)
  }

  /** The filter keeps exactly the elements that satisfy `p`, each no more often
      than in the input. */
  lemma {:induction false} FilterProperties<T(!new)>(xs: seq<T>, p: T -> bool)
    ensures forall y :: y in Filter(xs, p) <==> y in xs && p(y)
    ensures multiset(Filter(xs, p)) <= multiset(xs)
    ensures Distinct(xs) ==> Distinct(Filter(xs, p))
  {
    if xs != [] {
      FilterProperties(xs[1..], p);
      assert xs == [xs[0]] + xs[1..];
      assert Distinct(xs) ==> xs[0] !in xs[1..];
    }
  }

  lemma {:induction false} FilterCons<T>(x: T, ys: seq<T>, p: T -> bool)
    ensures Filter([x] + ys, p) == (if p(x) then [x] else []) + Filter(ys, p)
  {
    assert ([x] + ys)[0] == x && ([x] + ys)[1..] == ys;
  }

  lemma {:induction false} AppendAssoc<T>(a: seq<T>, b: seq<T>, c: seq<T>)
    ensures a + (b + c) == (a + b) + c
  {
  }

  /** A filter that every element passes keeps the whole sequence. */
  lemma {:induction false} FilterAll<T>(xs: seq<T>, p: T -> bool)
    requires forall k :: 0 <= k < |xs| ==> p(xs[k])
    ensures Filter(xs, p) == xs
  {
    if xs != [] {
      FilterAll(xs[1..], p);
      assert [xs[0]] + xs[1..] == xs;
    }
  }

  lemma {:induction false} FilterSnoc<T(!new)>(xs: seq<T>, x: T, p: T -> bool)
    ensures Filter(xs + [x], p) == Filter(xs, p) + (if p(x) then [x] else [])
  {
    var last := if p(x) then [x] else [];
    if xs == [] {
      assert [x][1..] == [];
    } else {
      var ys := xs + [x];
      var head := if p(xs[0]) then [xs[0]] else [];
      assert ys[0] == xs[0] && ys[1..] == xs[1..] + [x];
      assert Filter(ys, p) == head + Filter(xs[1..] + [x], p);
      FilterSnoc(xs[1..], x, p);
      assert Filter(ys, p) == head + (Filter(xs[1..], p) + last);
      assert Filter(xs, p) == head + Filter(xs[1..], p);
    }
  }

  /** The number of elements that satisfy `p` (`countDocuments(filter)`). */
  function Count<T>(xs: seq<T>, p: T -> bool): (n: nat)
    ensures n == |Filter(xs, p)|
  {
    if xs == [] then 0 else (if p(xs[0]) then 1 else 0) + Count(xs[1..], p)
  }
}
