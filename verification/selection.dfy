/** Order-preserving selection from a sequence, the shape of every
    "for each contour: if test: append" loop in the detectors. */
module Selection {

  /** `idx` is a strictly increasing list of positions below `n`. */
  ghost predicate Increasing(idx: seq<nat>, n: nat) {
    && (forall k :: 0 <= k < |idx| ==> idx[k] < n)
    && (forall k, l :: 0 <= k < l < |idx| ==> idx[k] < idx[l])
  }

  /** The elements satisfying `keep`, in their original order. */
  function Filter<T>(xs: seq<T>, keep: T -> bool): (r: seq<T>)
    ensures |r| <= |xs|
    ensures forall y :: y in r ==> y in xs && keep(y)
    ensures forall i :: 0 <= i < |xs| && keep(xs[i]) ==> xs[i] in r
    decreases |xs|
  {
    if |xs| == 0 then []
    else
      var init := xs[..|xs| - 1];
      assert forall i :: 0 <= i < |xs| - 1 ==> init[i] == xs[i];
      Filter(init, keep) + (if keep(xs[|xs| - 1]) then [xs[|xs| - 1]] else [])
  }

  /** The positions of the elements satisfying `keep`, in increasing order. */
  function Kept<T>(xs: seq<T>, keep: T -> bool): (idx: seq<nat>)
    ensures Increasing(idx, |xs|)
    ensures forall k :: 0 <= k < |idx| ==> keep(xs[idx[k]])
    ensures forall i :: 0 <= i < |xs| && keep(xs[i]) ==> i in idx
    decreases |xs|
  {
    if |xs| == 0 then []
    else
      var init := xs[..|xs| - 1];
      assert forall i :: 0 <= i < |xs| - 1 ==> init[i] == xs[i];
      Kept(init, keep) + (if keep(xs[|xs| - 1]) then [|xs| - 1] else [])
  }

  /** Filter keeps exactly the elements at the positions Kept lists: the
      result is the subsequence of satisfying elements, in input order. */
  lemma {:induction false} FilterIsKeptSubsequence<T>(xs: seq<T>, keep: T -> bool)
    ensures |Filter(xs, keep)| == |Kept(xs, keep)|
    ensures forall k :: 0 <= k < |Kept(xs, keep)| ==> Filter(xs, keep)[k] == xs[Kept(xs, keep)[k]]
    decreases |xs|
  {
    if |xs| > 0 {
      var init := xs[..|xs| - 1];
      var last := xs[|xs| - 1];
      FilterIsKeptSubsequence(init, keep);
      var f0, k0 := Filter(init, keep), Kept(init, keep);
      var tailF: seq<T> := if keep(last) then [last] else [];
      var tailK: seq<nat> := if keep(last) then [|xs| - 1] else [];
      assert Filter(xs, keep) == f0 + tailF;
      assert Kept(xs, keep) == k0 + tailK;
      forall k | 0 <= k < |Kept(xs, keep)|
        ensures Filter(xs, keep)[k] == xs[Kept(xs, keep)[k]]
      {
        if k < |k0| {
          assert Kept(xs, keep)[k] == k0[k];
          assert Filter(xs, keep)[k] == f0[k] == init[k0[k]];
        }
      }
    }
  }

  /** Dropping the last element drops at most its own position. */
  lemma KeptCountSnoc<T>(xs: seq<T>, keep: T -> bool)
    requires |xs| > 0
    ensures |Kept(xs, keep)| == |Kept(xs[..|xs| - 1], keep)| + (if keep(xs[|xs| - 1]) then 1 else 0)
  {
  }

  /** Filtering distributes over appending one element. */
  lemma FilterSnoc<T>(xs: seq<T>, x: T, keep: T -> bool)
    ensures Filter(xs + [x], keep) == Filter(xs, keep) + (if keep(x) then [x] else [])
  {
    assert (xs + [x])[..|xs + [x]| - 1] == xs;
  }
}
