/** Enumerating tokens by index (the `tokenOfOwnerByIndex` / `tokenByIndex` functions of the
    optional enumeration extension in the Specification section of EIP-721) one index at a
    time. A contract read is an oracle from the index to `Some(result)`, or to `None` when the
    read throws. The pages gather the per-index outcomes under one of two failure policies:

    - `Successes`: skip every failed index and keep the others (the owner's plant list);
    - `AllOrNothing`: any failure fails the whole batch (the community list's `Promise.all`,
      and the badge loop, which stops at the first failure). */
module Enumeration {
  import opened Wrappers

  /** The outcomes of reading indices 0 .. n-1, in index order. */
  function PerIndex<T>(n: nat, fetch: nat -> Option<T>): (r: seq<Option<T>>)
    ensures |r| == n
    ensures forall i :: 0 <= i < n ==> r[i] == fetch(i)
  {
    if n == 0 then [] else PerIndex(n - 1, fetch) + [fetch(n - 1)]
  }

  /** Skip-on-failure: the successful results, in index order. */
  function Successes<T>(outcomes: seq<Option<T>>): seq<T>
  {
    if outcomes == [] then []
    else
      var init := Successes(outcomes[..|outcomes| - 1]);
      match outcomes[|outcomes| - 1]
      case Some(x) => init + [x]
      case None => init
  }

  /** The indices whose read succeeded, in increasing order. */
  function SuccessIndices<T>(outcomes: seq<Option<T>>): seq<nat>
  {
    if outcomes == [] then []
    else
      var init := SuccessIndices(outcomes[..|outcomes| - 1]);
      if outcomes[|outcomes| - 1].Some? then init + [|outcomes| - 1] else init
  }

  predicate Increasing(idx: seq<nat>)
  {
    forall j, k :: 0 <= j < k < |idx| ==> idx[j] < idx[k]
  }

  /** The skip policy keeps exactly the successful indices' results, in index order: the k-th
      kept result is the result at the k-th successful index, and an index is among those kept
      exactly when its read succeeded. So no more results than indices come out. */
  lemma {:induction false} SuccessesAreTheSuccessfulIndices<T>(outcomes: seq<Option<T>>)
    ensures var r, idx := Successes(outcomes), SuccessIndices(outcomes);
      && |r| == |idx| <= |outcomes|
      && Increasing(idx)
      && (forall k :: 0 <= k < |idx| ==> idx[k] < |outcomes| && outcomes[idx[k]] == Some(r[k]))
      && (forall i :: 0 <= i < |outcomes| ==> (i in idx <==> outcomes[i].Some?))
  {
    if outcomes != [] {
      var n := |outcomes| - 1;
      var init := outcomes[..n];
      SuccessesAreTheSuccessfulIndices(init);
      var r0, idx0 := Successes(init), SuccessIndices(init);
      var r, idx := Successes(outcomes), SuccessIndices(outcomes);
      assert forall i :: 0 <= i < n ==> outcomes[i] == init[i];
      if outcomes[n].Some? {
        assert r == r0 + [outcomes[n].value] && idx == idx0 + [n];
        forall k | 0 <= k < |idx|
          ensures idx[k] < |outcomes| && outcomes[idx[k]] == Some(r[k])
        {
          if k < |idx0| {
            assert idx[k] == idx0[k] && r[k] == r0[k];
          }
        }
        forall i | 0 <= i < |outcomes|
          ensures i in idx <==> outcomes[i].Some?
        {
          if i < n {
            assert i in idx <==> i in idx0;
          }
        }
      } else {
        assert r == r0 && idx == idx0;
      }
    }
  }

  /** All-or-nothing: every result in index order when every read succeeded, else `None`. */
  function AllOrNothing<T>(outcomes: seq<Option<T>>): (r: Option<seq<T>>)
    ensures r.Some? <==> forall i :: 0 <= i < |outcomes| ==> outcomes[i].Some?
    ensures r.Some? ==>
      |r.value| == |outcomes| && forall i :: 0 <= i < |outcomes| ==> outcomes[i] == Some(r.value[i])
  {
    if outcomes == [] then Some([])
    else
      match (AllOrNothing(outcomes[..|outcomes| - 1]), outcomes[|outcomes| - 1])
      case (Some(init), Some(x)) => Some(init + [x])
      case _ => None
  }

  /** The two policies agree when nothing fails; when something fails, all-or-nothing yields
      nothing while skip-on-failure yields strictly fewer results than indices. */
  lemma {:induction false} PoliciesCompared<T>(outcomes: seq<Option<T>>)
    ensures AllOrNothing(outcomes).Some? ==> AllOrNothing(outcomes).value == Successes(outcomes)
    ensures AllOrNothing(outcomes).None? ==> |Successes(outcomes)| < |outcomes|
  {
    if outcomes != [] {
      var init := outcomes[..|outcomes| - 1];
      PoliciesCompared(init);
      SuccessesAtMost(init);
    }
  }

  lemma {:induction false} SuccessesAtMost<T>(outcomes: seq<Option<T>>)
    ensures |Successes(outcomes)| <= |outcomes|
  {
    if outcomes != [] {
      SuccessesAtMost(outcomes[..|outcomes| - 1]);
    }
  }
}
