/** Growable vectors as sequences: the operations the program uses on `Vec`. */
module Vectors {
  /** `Vec::swap_remove`: the last element takes the place of the removed one. */
  function SwapRemove<T>(xs: seq<T>, index: nat): seq<T>
    requires index < |xs|
  {
    if index == |xs| - 1 then xs[..index] else xs[..index] + [xs[|xs| - 1]] + xs[index + 1..|xs| - 1]
  }

  lemma SwapRemoveIsRemoval<T>(xs: seq<T>, index: nat)
    requires index < |xs|
    ensures multiset(SwapRemove(xs, index)) + multiset{xs[index]} == multiset(xs)
    ensures |SwapRemove(xs, index)| == |xs| - 1
    ensures SwapRemove(xs, index)[..index] == xs[..index]
  {
    var last := |xs| - 1;
    if index == last {
      assert xs == xs[..last] + [xs[last]];
    } else {
      var a, b := xs[..index], xs[index + 1..last];
      assert xs == a + [xs[index]] + b + [xs[last]];
      assert SwapRemove(xs, index) == a + [xs[last]] + b;
      hide SwapRemove;
      LastTakesPlace(a, xs[index], b, xs[last]);
    }
  }

  lemma LastTakesPlace<T>(a: seq<T>, x: T, b: seq<T>, last: T)
    ensures multiset(a + [last] + b) + multiset{x} == multiset(a + [x] + b + [last])
  {
    assert multiset(a + [last] + b) == multiset(a) + multiset{last} + multiset(b);
    assert multiset(a + [x] + b + [last]) == multiset(a) + multiset{x} + multiset(b) + multiset{last};
  }

  function SumOf<T>(weight: T -> nat, xs: seq<T>): nat {
    if xs == [] then 0 else SumOf(weight, xs[..|xs| - 1]) + weight(xs[|xs| - 1])
  }

  lemma {:induction false} SumOfConcat<T>(weight: T -> nat, xs: seq<T>, ys: seq<T>)
    ensures SumOf(weight, xs + ys) == SumOf(weight, xs) + SumOf(weight, ys)
  {
    if ys == [] {
      assert xs + ys == xs;
    } else {
      assert (xs + ys)[..|xs + ys| - 1] == xs + ys[..|ys| - 1];
      SumOfConcat(weight, xs, ys[..|ys| - 1]);
    }
  }

  lemma MultisetOfRemoval<T>(xs: seq<T>, j: nat)
    requires j < |xs|
    ensures multiset(xs) == multiset(xs[..j] + xs[j + 1..]) + multiset{xs[j]}
  {
    assert xs == (xs[..j] + [xs[j]]) + xs[j + 1..];
  }

  lemma SumOfRemoval<T>(weight: T -> nat, xs: seq<T>, j: nat)
    requires j < |xs|
    ensures SumOf(weight, xs) == SumOf(weight, xs[..j] + xs[j + 1..]) + weight(xs[j])
  {
    hide SumOf;
    var before, x, after := xs[..j], xs[j], xs[j + 1..];
    assert xs == (before + [x]) + after;
    SumOfConcat(weight, before + [x], after);
    SumOfConcat(weight, before, after);
    SumOfLast(weight, before, x);
  }

  lemma SumOfLast<T>(weight: T -> nat, xs: seq<T>, x: T)
    ensures SumOf(weight, xs + [x]) == SumOf(weight, xs) + weight(x)
  {
    assert (xs + [x])[..|xs|] == xs;
  }

  /** A sum does not depend on the order of its terms. */
  lemma {:induction false} SumOfPermutation<T>(weight: T -> nat, xs: seq<T>, ys: seq<T>)
    requires multiset(xs) == multiset(ys)
    ensures SumOf(weight, xs) == SumOf(weight, ys)
  {
    hide SumOf;
    if xs == [] {
      assert |multiset(ys)| == 0;
    } else {
      assert xs[0] in multiset(ys);
      var j :| 0 <= j < |ys| && ys[j] == xs[0];
      SumOfRemoval(weight, xs, 0);
      SumOfRemoval(weight, ys, j);
      MultisetOfRemoval(xs, 0);
      MultisetOfRemoval(ys, j);
      assert xs[..0] + xs[1..] == xs[1..];
      var rest := ys[..j] + ys[j + 1..];
      assert multiset(xs[1..]) == multiset(xs) - multiset{xs[0]} == multiset(rest);
      SumOfPermutation(weight, xs[1..], rest);
    }
  }

  lemma {:induction false} SumOfPointwise<S, T>(f: S -> nat, xs: seq<S>, g: T -> nat, ys: seq<T>)
    requires |xs| == |ys| && forall i :: 0 <= i < |xs| ==> f(xs[i]) == g(ys[i])
    ensures SumOf(f, xs) == SumOf(g, ys)
  {
    if xs != [] {
      SumOfPointwise(f, xs[..|xs| - 1], g, ys[..|ys| - 1]);
    }
  }

  lemma {:induction false} SumOfSplit<S, T>(f: S -> nat, xs: seq<S>, g: T -> nat, h: T -> nat, ys: seq<T>)
    requires |xs| == |ys| && forall i :: 0 <= i < |xs| ==> f(xs[i]) + g(ys[i]) == h(ys[i])
    ensures SumOf(f, xs) + SumOf(g, ys) == SumOf(h, ys)
  {
    if xs != [] {
      SumOfSplit(f, xs[..|xs| - 1], g, h, ys[..|ys| - 1]);
    }
  }
}
