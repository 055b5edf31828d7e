/** Order-preserving sub-sequences, used to state what list filters keep. */
module Sequences {

  /** `xs` can be obtained from `ys` by deleting elements, keeping the order. */
  predicate IsSubsequence<T(==)>(xs: seq<T>, ys: seq<T>)
    decreases |ys|
  {
    if |xs| == 0 then true
    else if |ys| == 0 then false
    else if xs[0] == ys[0] then IsSubsequence(xs[1..], ys[1..])
    else IsSubsequence(xs, ys[1..])
  }

  lemma {:induction false} SubsequenceOfSelf<T>(ys: seq<T>)
    ensures IsSubsequence(ys, ys)
  {
    if |ys| > 0 {
      SubsequenceOfSelf(ys[1..]);
    }
  }

  /** A sub-sequence is never longer and holds only elements of the original. */
  lemma {:induction false} SubsequenceBounds<T>(xs: seq<T>, ys: seq<T>)
    requires IsSubsequence(xs, ys)
    ensures |xs| <= |ys|
    ensures forall x :: x in xs ==> x in ys
  {
    if |xs| > 0 {
      if xs[0] == ys[0] {
        SubsequenceBounds(xs[1..], ys[1..]);
        assert xs == [xs[0]] + xs[1..];
      } else {
        SubsequenceBounds(xs, ys[1..]);
      }
    }
  }

  /** Appending the same element to both sides keeps the relation. */
  lemma {:induction false} SubsequenceSnoc<T>(xs: seq<T>, ys: seq<T>, y: T)
    requires IsSubsequence(xs, ys)
    ensures IsSubsequence(xs + [y], ys + [y])
    decreases |ys|
  {
    if |xs| == 0 {
      assert xs + [y] == [y];
      SubsequenceOfEmptyPrefix(ys, y);
    } else if xs[0] == ys[0] {
      SubsequenceSnoc(xs[1..], ys[1..], y);
      assert (xs + [y])[1..] == xs[1..] + [y];
      assert (ys + [y])[1..] == ys[1..] + [y];
    } else {
      SubsequenceSnoc(xs, ys[1..], y);
      assert (ys + [y])[1..] == ys[1..] + [y];
    }
  }

  /** Appending an element to the longer side only keeps the relation. */
  lemma {:induction false} SubsequenceExtend<T>(xs: seq<T>, ys: seq<T>, y: T)
    requires IsSubsequence(xs, ys)
    ensures IsSubsequence(xs, ys + [y])
    decreases |ys|
  {
    if |xs| > 0 {
      if xs[0] == ys[0] {
        SubsequenceExtend(xs[1..], ys[1..], y);
      } else {
        SubsequenceExtend(xs, ys[1..], y);
      }
      assert (ys + [y])[1..] == ys[1..] + [y];
    }
  }

  lemma {:induction false} SubsequenceOfEmptyPrefix<T>(ys: seq<T>, y: T)
    ensures IsSubsequence([y], ys + [y])
    decreases |ys|
  {
    if |ys| > 0 {
      SubsequenceOfEmptyPrefix(ys[1..], y);
      assert (ys + [y])[1..] == ys[1..] + [y];
    }
  }

  /** Swift's `filter`: the elements of `xs` that satisfy `p`, in order. */
  function Keep<T(==,!new)>(xs: seq<T>, p: T -> bool): (kept: seq<T>)
    ensures IsSubsequence(kept, xs)
    ensures forall x :: x in kept <==> x in xs && p(x)
    ensures forall x :: multiset(kept)[x] == if p(x) then multiset(xs)[x] else 0
  {
    if |xs| == 0 then []
    else
      var rest := Keep(xs[1..], p);
      assert xs == [xs[0]] + xs[1..];
      assert multiset(xs) == multiset([xs[0]]) + multiset(xs[1..]);
      if p(xs[0]) then
        assert ([xs[0]] + rest)[1..] == rest;
        assert multiset([xs[0]] + rest) == multiset([xs[0]]) + multiset(rest);
        [xs[0]] + rest
      else
        rest
  }

  /** Filtering a list whose every element passes changes nothing. */
  lemma {:induction false} KeepAll<T(!new)>(xs: seq<T>, p: T -> bool)
    requires forall x :: x in xs ==> p(x)
    ensures Keep(xs, p) == xs
  {
    if |xs| > 0 {
      KeepAll(xs[1..], p);
    }
  }

  /** Filtering twice by the same test is filtering once. */
  lemma KeepIdempotent<T(!new)>(xs: seq<T>, p: T -> bool)
    ensures Keep(Keep(xs, p), p) == Keep(xs, p)
  {
    KeepAll(Keep(xs, p), p);
  }

  /** Tests that agree on every element keep the same elements. */
  lemma {:induction false} KeepCongruent<T(!new)>(xs: seq<T>, p: T -> bool, q: T -> bool)
    requires forall x :: x in xs ==> p(x) == q(x)
    ensures Keep(xs, p) == Keep(xs, q)
  {
    if |xs| > 0 {
      KeepCongruent(xs[1..], p, q);
    }
  }
}
