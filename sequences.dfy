/** Order-preserving selection, as a boolean mask over a list or a frame's
    rows does it in pandas (`df[mask]`) and a comprehension with an `if` does
    it in Python. */
module Sequences {

  /** The elements satisfying `p`, in their original order. */
  function Filter<T>(xs: seq<T>, p: T -> bool): (r: seq<T>)
    ensures |r| <= |xs|
    ensures forall k :: 0 <= k < |r| ==> p(r[k])
  {
    if xs == [] then []
    else Filter(xs[..|xs| - 1], p) + (if p(xs[|xs| - 1]) then [xs[|xs| - 1]] else [])
  }

  /** Where each element kept by `Filter` came from: strictly increasing
      positions, covering every position whose element satisfies `p`. */
  function KeptIndices<T>(xs: seq<T>, p: T -> bool): (ix: seq<nat>)
    ensures |ix| == |Filter(xs, p)|
    ensures forall k :: 0 <= k < |ix| ==> ix[k] < |xs| && Filter(xs, p)[k] == xs[ix[k]]
    ensures forall k, l :: 0 <= k < l < |ix| ==> ix[k] < ix[l]
    ensures forall i :: 0 <= i < |xs| ==> (p(xs[i]) <==> i in ix)
  {
    if xs == [] then []
    else
      var n := |xs| - 1;
      var prev := KeptIndices(xs[..n], p);
      assert Filter(xs, p) == Filter(xs[..n], p) + (if p(xs[n]) then [xs[n]] else []);
      KeptStepPositions(xs, p, Filter(xs[..n], p), prev);
      KeptStepCovers(xs, p, prev);
      prev + (if p(xs[n]) then [n] else [])
  }

  /** Adding the last position to the positions kept from the prefix keeps
      them increasing and pointing at the kept elements. */
  lemma KeptStepPositions<T>(xs: seq<T>, p: T -> bool, f: seq<T>, prev: seq<nat>)
    requires |xs| >= 1 && |prev| == |f|
    requires forall k :: 0 <= k < |prev| ==> prev[k] < |xs| - 1 && f[k] == xs[prev[k]]
    requires forall k, l :: 0 <= k < l < |prev| ==> prev[k] < prev[l]
    ensures var n := |xs| - 1;
      var ix := prev + (if p(xs[n]) then [n] else []);
      var g := f + (if p(xs[n]) then [xs[n]] else []);
      && |ix| == |g|
      && (forall k :: 0 <= k < |ix| ==> ix[k] < |xs| && g[k] == xs[ix[k]])
      && (forall k, l :: 0 <= k < l < |ix| ==> ix[k] < ix[l])
  {
  }

  /** Adding the last position covers every position whose element passes. */
  lemma KeptStepCovers<T>(xs: seq<T>, p: T -> bool, prev: seq<nat>)
    requires |xs| >= 1
    requires forall i :: 0 <= i < |xs| - 1 ==> (p(xs[..|xs| - 1][i]) <==> i in prev)
    requires forall k :: 0 <= k < |prev| ==> prev[k] < |xs| - 1
    ensures var n := |xs| - 1;
      var ix := prev + (if p(xs[n]) then [n] else []);
      forall i :: 0 <= i < |xs| ==> (p(xs[i]) <==> i in ix)
  {
    var n := |xs| - 1;
    assert forall i :: 0 <= i < n ==> xs[..n][i] == xs[i];
  }

  /** An element is kept exactly when it is in `xs` and satisfies `p`. */
  lemma {:induction false} FilterMembers<T>(xs: seq<T>, p: T -> bool)
    ensures forall x :: x in Filter(xs, p) <==> x in xs && p(x)
  {
    if xs != [] {
      var n := |xs| - 1;
      FilterMembers(xs[..n], p);
      assert xs == xs[..n] + [xs[n]];
    }
  }

  /** `f` applied to every element, in order. */
  function Map<T, U>(xs: seq<T>, f: T -> U): (r: seq<U>)
    ensures |r| == |xs| && forall i :: 0 <= i < |xs| ==> r[i] == f(xs[i])
  {
    seq(|xs|, i requires 0 <= i < |xs| => f(xs[i]))
  }

  /** Selecting after transforming is transforming after selecting, when
      the test on a transformed element is the test on the original one. */
  lemma {:induction false} FilterMap<T, U>(xs: seq<T>, f: T -> U, p: T -> bool, q: U -> bool)
    requires forall x :: q(f(x)) == p(x)
    ensures Filter(Map(xs, f), q) == Map(Filter(xs, p), f)
  {
    if xs != [] {
      var n := |xs| - 1;
      assert Map(xs, f)[..n] == Map(xs[..n], f);
      FilterMap(xs[..n], f, p, q);
      var tail := if p(xs[n]) then [xs[n]] else [];
      assert Map(Filter(xs[..n], p) + tail, f) == Map(Filter(xs[..n], p), f) + Map(tail, f);
    }
  }
}
