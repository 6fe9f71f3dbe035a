/**
 The numeric queue-label issuer: a process-wide counter, starting at 0, whose
 `Get` hands out the current value and bumps it.  The static variable is
 modelled as a field of one issuer object, created once.
*/
module QueueIds {

  class LabelDispatch {
    var nextId: int

    /** The counter's initial value. */
    constructor ()
      ensures nextId == 0
    {
      nextId := 0;
    }

    /** Returns the id the counter held on entry and advances it by one. */
    method Get() returns (id: int)
      modifies this
      ensures id == old(nextId)
      ensures nextId == old(nextId) + 1
    {
      id := nextId;
      nextId := nextId + 1;
    }
  }

  /**
   The first `n` calls of `Get` after start-up: the k-th call (from 0)
   returns k, so the results increase strictly and are pairwise distinct.
  */
  method FirstIds(n: nat) returns (ids: seq<int>)
    ensures |ids| == n
    ensures forall k :: 0 <= k < n ==> ids[k] == k
    ensures forall i, j :: 0 <= i < j < n ==> ids[i] < ids[j]
  {
    var dispatch := new LabelDispatch();
    ids := [];
    while |ids| < n
      invariant |ids| <= n
      invariant dispatch.nextId == |ids|
      invariant forall k :: 0 <= k < |ids| ==> ids[k] == k
    {
      var id := dispatch.Get();
      ids := ids + [id];
    }
  }
}
