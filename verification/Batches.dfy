/** A batch of rows worked through in order, which a failure can cut short. */
module Batches {
  ghost predicate Distinct(batch: seq<nat>) {
    forall j, k :: 0 <= j < k < |batch| ==> batch[j] != batch[k]
  }

  /** How many items are reached when the first stop ends the work. */
  function Reached(stops: seq<bool>): (n: nat)
    ensures n <= |stops|
    ensures forall k :: 0 <= k < n - 1 ==> !stops[k]
    ensures n < |stops| ==> n > 0 && stops[n - 1]
  {
    if stops == [] then 0
    else if stops[0] then 1
    else 1 + Reached(stops[1..])
  }

  lemma ReachedIs(stops: seq<bool>, n: nat)
    requires 0 < n <= |stops| && (forall k :: 0 <= k < n - 1 ==> !stops[k])
    requires stops[n - 1] || n == |stops|
    ensures Reached(stops) == n
  {
  }
}
