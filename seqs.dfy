/**
 * Filtering a sequence and concatenating what a function makes of its elements: the two
 * sequence operations behind the cue loop of `write_vtt`, stated once for any element type
 * so that their proofs do not look inside the elements.
 */
module Seqs {

  /** The elements of `xs` that `keep` accepts, in their order. */
  function Filter<T>(xs: seq<T>, keep: T -> bool): seq<T> {
    if xs == [] then []
    else Filter(xs[..|xs| - 1], keep) + (if keep(xs[|xs| - 1]) then [xs[|xs| - 1]] else [])
  }

  /** The positions of the accepted elements: increasing, and containing every accepted one. */
  function FilterIndices<T>(xs: seq<T>, keep: T -> bool): (idx: seq<nat>)
    ensures forall j :: 0 <= j < |idx| ==> idx[j] < |xs| && keep(xs[idx[j]])
    ensures forall j, k :: 0 <= j < k < |idx| ==> idx[j] < idx[k]
    ensures forall i :: 0 <= i < |xs| && keep(xs[i]) ==> i in idx
  {
    if xs == [] then []
    else
      var n := |xs| - 1;
      var init := FilterIndices(xs[..n], keep);
      assert forall j :: 0 <= j < |init| ==> xs[init[j]] == xs[..n][init[j]];
      assert forall i :: 0 <= i < n ==> xs[i] == xs[..n][i];
      init + (if keep(xs[n]) then [n] else [])
  }

  /** `Filter` is the subsequence of `xs` at `FilterIndices`: every accepted element once, in
      input order, nothing else. */
  lemma {:induction false} FilterAt<T>(xs: seq<T>, keep: T -> bool)
    ensures |Filter(xs, keep)| == |FilterIndices(xs, keep)|
    ensures forall j :: 0 <= j < |Filter(xs, keep)| ==> Filter(xs, keep)[j] == xs[FilterIndices(xs, keep)[j]]
  {
    if xs != [] {
      var n := |xs| - 1;
      FilterAt(xs[..n], keep);
      var init, idx := Filter(xs[..n], keep), FilterIndices(xs[..n], keep);
      var tail := if keep(xs[n]) then [xs[n]] else [];
      assert Filter(xs, keep) == init + tail;
      assert FilterIndices(xs, keep) == idx + (if keep(xs[n]) then [n] else []);
      forall j | 0 <= j < |init|
        ensures Filter(xs, keep)[j] == xs[FilterIndices(xs, keep)[j]]
      {
        assert Filter(xs, keep)[j] == init[j] == xs[..n][idx[j]];
      }
    }
  }

  /** Nothing is kept exactly when nothing is accepted. */
  lemma FilterEmpty<T>(xs: seq<T>, keep: T -> bool)
    ensures Filter(xs, keep) == [] <==> forall i :: 0 <= i < |xs| ==> !keep(xs[i])
  {
    FilterAt(xs, keep);
    var idx := FilterIndices(xs, keep);
    if idx != [] {
      assert keep(xs[idx[0]]);
    }
  }

  /** What `f` makes of each element of `xs`, one after the other. */
  function Flatten<T>(xs: seq<T>, f: T -> string): string {
    if xs == [] then [] else Flatten(xs[..|xs| - 1], f) + f(xs[|xs| - 1])
  }

  lemma {:induction false} FlattenCons<T>(x: T, xs: seq<T>, f: T -> string)
    ensures Flatten([x] + xs, f) == f(x) + Flatten(xs, f)
  {
    if xs != [] {
      var n := |xs| - 1;
      assert ([x] + xs)[..n + 1] == [x] + xs[..n];
      FlattenCons(x, xs[..n], f);
    }
  }

  lemma FilterSnoc<T>(xs: seq<T>, x: T, keep: T -> bool)
    ensures Filter(xs + [x], keep) == Filter(xs, keep) + (if keep(x) then [x] else [])
  {
    assert (xs + [x])[..|xs|] == xs;
  }

  lemma FlattenSnoc<T>(xs: seq<T>, x: T, f: T -> string)
    ensures Flatten(xs + [x], f) == Flatten(xs, f) + f(x)
  {
    assert (xs + [x])[..|xs|] == xs;
  }

  lemma {:induction false} FilterCons<T>(x: T, xs: seq<T>, keep: T -> bool)
    ensures Filter([x] + xs, keep) == (if keep(x) then [x] else []) + Filter(xs, keep)
  {
    if xs != [] {
      var n := |xs| - 1;
      assert ([x] + xs)[..n + 1] == [x] + xs[..n];
      FilterCons(x, xs[..n], keep);
    }
  }
}
