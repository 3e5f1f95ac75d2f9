/** Order-preserving filtering of sequences (JavaScript's `Array.prototype.filter`). */
module Seqs {

  /** The elements of `xs` that satisfy `f`, in their original order. */
  function Filter<T>(xs: seq<T>, f: T -> bool): (ys: seq<T>)
    ensures |ys| <= |xs|
    ensures forall i :: 0 <= i < |ys| ==> f(ys[i])
    ensures forall y :: y in ys ==> y in xs
  {
    if xs == [] then []
    else (if f(xs[0]) then [xs[0]] else []) + Filter(xs[1..], f)
  }

  /** Position of the first element of `xs` that satisfies `f` (JavaScript's `find` order), or `|xs|` when none does. */
  function FirstIndex<T>(xs: seq<T>, f: T -> bool): (k: nat)
    ensures k <= |xs|
    ensures forall j :: 0 <= j < k ==> !f(xs[j])
    ensures k < |xs| ==> f(xs[k])
  {
    if xs == [] then 0
    else if f(xs[0]) then 0
    else 1 + FirstIndex(xs[1..], f)
  }

  /** Number of elements of `xs` that satisfy `f`. */
  function Count<T>(xs: seq<T>, f: T -> bool): nat
  {
    if xs == [] then 0 else (if f(xs[0]) then 1 else 0) + Count(xs[1..], f)
  }

  /** `ys` can be obtained from `xs` by deleting elements, without reordering the rest. */
  ghost predicate IsSubsequence<T>(ys: seq<T>, xs: seq<T>)
    decreases |xs|
  {
    || ys == []
    || (xs != [] && ((ys[0] == xs[0] && IsSubsequence(ys[1..], xs[1..])) || IsSubsequence(ys, xs[1..])))
  }

  /** An element is kept by `Filter` exactly when it occurs in the input and satisfies `f`. */
  lemma {:induction false} FilterMembership<T>(xs: seq<T>, f: T -> bool, x: T)
    ensures x in Filter(xs, f) <==> x in xs && f(x)
  {
    if xs != [] {
      FilterMembership(xs[1..], f, x);
      assert xs == [xs[0]] + xs[1..];
    }
  }

  /** Filtering a concatenation filters each part: relative order is kept. */
  lemma {:induction false} FilterAppend<T>(xs: seq<T>, zs: seq<T>, f: T -> bool)
    ensures Filter(xs + zs, f) == Filter(xs, f) + Filter(zs, f)
  {
    if xs == [] {
      assert xs + zs == zs;
    } else {
      assert (xs + zs)[1..] == xs[1..] + zs;
      FilterAppend(xs[1..], zs, f);
    }
  }

  /** The filtered sequence is an order-preserving subsequence of the input. */
  lemma {:induction false} FilterIsSubsequence<T>(xs: seq<T>, f: T -> bool)
    ensures IsSubsequence(Filter(xs, f), xs)
  {
    if xs != [] {
      FilterIsSubsequence(xs[1..], f);
      if f(xs[0]) {
        assert Filter(xs, f) == [xs[0]] + Filter(xs[1..], f);
        assert Filter(xs, f)[1..] == Filter(xs[1..], f);
      } else {
        assert Filter(xs, f) == Filter(xs[1..], f);
      }
    }
  }

  /** `Filter` keeps nothing exactly when no element satisfies `f`. */
  lemma {:induction false} FilterEmpty<T>(xs: seq<T>, f: T -> bool)
    ensures Filter(xs, f) == [] <==> forall i :: 0 <= i < |xs| ==> !f(xs[i])
  {
    if xs != [] {
      FilterEmpty(xs[1..], f);
      assert forall i :: 1 <= i < |xs| ==> xs[i] == xs[1..][i - 1];
    }
  }

  /** `Filter` keeps everything when every element satisfies `f`. */
  lemma {:induction false} FilterKeepsAll<T>(xs: seq<T>, f: T -> bool)
    requires forall i :: 0 <= i < |xs| ==> f(xs[i])
    ensures Filter(xs, f) == xs
  {
    if xs != [] {
      FilterKeepsAll(xs[1..], f);
    }
  }

  /** The length of a filter is the number of elements that pass. */
  lemma {:induction false} FilterLength<T>(xs: seq<T>, f: T -> bool)
    ensures |Filter(xs, f)| == Count(xs, f)
  {
    if xs != [] {
      FilterLength(xs[1..], f);
    }
  }

  /** With `g` the negation of `f`, the elements kept and the elements dropped add up to the input. */
  lemma {:induction false} CountPartition<T>(xs: seq<T>, f: T -> bool, g: T -> bool)
    requires forall x :: g(x) == !f(x)
    ensures Count(xs, f) + Count(xs, g) == |xs|
  {
    if xs != [] {
      CountPartition(xs[1..], f, g);
    }
  }

  /** Filtering by two predicates that agree everywhere gives the same list. */
  lemma {:induction false} FilterAgreeing<T>(xs: seq<T>, f: T -> bool, g: T -> bool)
    requires forall x :: f(x) == g(x)
    ensures Filter(xs, f) == Filter(xs, g)
  {
    if xs != [] {
      FilterAgreeing(xs[1..], f, g);
    }
  }
}
