/** Order-preserving filtering, the model of `Array.prototype.filter` over a Map's values. */
module Sequences {

  /** The elements of `xs` that satisfy `p`, in their original order. */
  function Filter<T(!new)>(xs: seq<T>, p: T -> bool): (r: seq<T>)
    ensures |r| <= |xs|
    ensures forall x :: x in r <==> x in xs && p(x)
    decreases |xs|
  {
    if |xs| == 0 then []
    else
      assert xs == xs[..|xs| - 1] + [xs[|xs| - 1]];
      Filter(xs[..|xs| - 1], p) + (if p(xs[|xs| - 1]) then [xs[|xs| - 1]] else [])
  }

  /** Filtering one appended element keeps it, at the end, exactly when it satisfies `p`. */
  lemma FilterSnoc<T(!new)>(xs: seq<T>, x: T, p: T -> bool)
    ensures Filter(xs + [x], p) == Filter(xs, p) + (if p(x) then [x] else [])
  {
    assert (xs + [x])[..|xs|] == xs;
  }

  /** Filtering distributes over concatenation, so it never reorders what it keeps. */
  lemma {:induction false} FilterConcat<T(!new)>(xs: seq<T>, ys: seq<T>, p: T -> bool)
    ensures Filter(xs + ys, p) == Filter(xs, p) + Filter(ys, p)
    decreases |ys|
  {
    if |ys| == 0 {
      assert xs + ys == xs;
    } else {
      var init, last := ys[..|ys| - 1], ys[|ys| - 1];
      var kept := if p(last) then [last] else [];
      assert ys == init + [last];
      assert xs + ys == (xs + init) + [last];
      FilterConcat(xs, init, p);
      FilterSnoc(xs + init, last, p);
      FilterSnoc(init, last, p);
      calc {
        Filter(xs + ys, p);
        Filter(xs + init, p) + kept;
        (Filter(xs, p) + Filter(init, p)) + kept;
        Filter(xs, p) + (Filter(init, p) + kept);
        Filter(xs, p) + Filter(ys, p);
      }
    }
  }
}
