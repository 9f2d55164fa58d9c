/**
 * Linear search with "last match wins": the result of a forward scan that
 * overwrites its answer every time an element satisfies the test.  The graph
 * uses it for vertex lookup and for edge lookup.
 */
module Search {
  import opened Wrappers

  /** The last element of `xs` that satisfies `p`, or `None` when none does. */
  function Last<T>(xs: seq<T>, p: T -> bool): (r: Option<T>)
    ensures r.None? <==> forall i :: 0 <= i < |xs| ==> !p(xs[i])
    ensures r.Some? ==> p(r.value)
    ensures r.Some? ==>
      exists i :: 0 <= i < |xs| && xs[i] == r.value &&
        forall j :: i < j < |xs| ==> !p(xs[j])
    decreases |xs|
  {
    if xs == [] then None
    else if p(xs[|xs| - 1]) then Some(xs[|xs| - 1])
    else
      var front := xs[..|xs| - 1];
      assert forall j :: 0 <= j < |front| ==> front[j] == xs[j];
      Last(front, p)
  }

  /** Scanning one more element: the new element wins if it matches. */
  lemma {:induction false} LastSnoc<T>(xs: seq<T>, x: T, p: T -> bool)
    ensures Last(xs + [x], p) == if p(x) then Some(x) else Last(xs, p)
  {
    assert (xs + [x])[..|xs|] == xs;
  }
}
