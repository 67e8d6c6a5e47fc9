/** Keeping, in order, the results of a partial map over a sequence. */
module Sequences {
  import opened Wrappers

  /** The `Some` results of `f` over `xs`, in order (the shape of a loop that pushes when a test passes). */
  function FilterMap<A, B>(f: A -> Option<B>, xs: seq<A>): seq<B>
    decreases |xs|
  {
    if xs == [] then []
    else
      var last := f(xs[|xs| - 1]);
      FilterMap(f, xs[..|xs| - 1]) + (if last.Some? then [last.value] else [])
  }

  lemma {:induction false} FilterMapAppend<A, B>(f: A -> Option<B>, xs: seq<A>, ys: seq<A>)
    ensures FilterMap(f, xs + ys) == FilterMap(f, xs) + FilterMap(f, ys)
    decreases |ys|
  {
    if ys == [] {
      assert xs + ys == xs;
    } else {
      assert (xs + ys)[..|xs + ys| - 1] == xs + ys[..|ys| - 1];
      FilterMapAppend(f, xs, ys[..|ys| - 1]);
    }
  }

  lemma {:induction false} FilterMapMembers<A, B>(f: A -> Option<B>, xs: seq<A>)
    ensures forall b :: b in FilterMap(f, xs) ==> exists k :: 0 <= k < |xs| && f(xs[k]) == Some(b)
    ensures forall k :: 0 <= k < |xs| && f(xs[k]).Some? ==> f(xs[k]).value in FilterMap(f, xs)
    ensures |FilterMap(f, xs)| <= |xs|
    decreases |xs|
  {
    if xs != [] {
      var init := xs[..|xs| - 1];
      FilterMapMembers(f, init);
      forall k | 0 <= k < |init| ensures xs[k] == init[k] { }
    }
  }

  lemma {:induction false} FilterMapKeepsRepeats<A, B>(f: A -> Option<B>, xs: seq<A>, x: A)
    requires f(x).Some?
    ensures multiset(FilterMap(f, xs))[f(x).value] >= multiset(xs)[x]
    decreases |xs|
  {
    if xs != [] {
      var init := xs[..|xs| - 1];
      FilterMapKeepsRepeats(f, init, x);
      assert xs == init + [xs[|xs| - 1]];
    }
  }

  /** When `f` accepts every element, the result has one entry per element, in order. */
  lemma {:induction false} FilterMapAllAccepted<A, B>(f: A -> Option<B>, xs: seq<A>)
    requires forall k :: 0 <= k < |xs| ==> f(xs[k]).Some?
    ensures |FilterMap(f, xs)| == |xs|
    ensures forall k :: 0 <= k < |xs| ==> FilterMap(f, xs)[k] == f(xs[k]).value
    decreases |xs|
  {
    if xs != [] {
      FilterMapAllAccepted(f, xs[..|xs| - 1]);
    }
  }

  /** The concatenation of `f` over `xs`, in order (the shape of a loop that appends each result). */
  function FlatMap<A, B>(f: A -> seq<B>, xs: seq<A>): seq<B>
    decreases |xs|
  {
    if xs == [] then [] else FlatMap(f, xs[..|xs| - 1]) + f(xs[|xs| - 1])
  }

  lemma {:induction false} FlatMapAppend<A, B>(f: A -> seq<B>, xs: seq<A>, ys: seq<A>)
    ensures FlatMap(f, xs + ys) == FlatMap(f, xs) + FlatMap(f, ys)
    decreases |ys|
  {
    if ys == [] {
      assert xs + ys == xs;
    } else {
      assert (xs + ys)[..|xs + ys| - 1] == xs + ys[..|ys| - 1];
      FlatMapAppend(f, xs, ys[..|ys| - 1]);
    }
  }

  lemma {:induction false} FlatMapMembers<A, B>(f: A -> seq<B>, xs: seq<A>)
    ensures forall b :: b in FlatMap(f, xs) ==> exists k :: 0 <= k < |xs| && b in f(xs[k])
    ensures forall k, b :: 0 <= k < |xs| && b in f(xs[k]) ==> b in FlatMap(f, xs)
    decreases |xs|
  {
    if xs != [] {
      var init := xs[..|xs| - 1];
      FlatMapMembers(f, init);
      forall k | 0 <= k < |init| ensures xs[k] == init[k] { }
    }
  }
}
