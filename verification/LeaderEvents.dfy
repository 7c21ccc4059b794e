/** The events a node publishes about its own leadership. */
module LeaderEvents {

  /** The flags published so far alternate, starting with true, and end with the current flag. */
  predicate Alternates(published: seq<bool>, flag: bool) {
    && (forall i :: 0 <= i < |published| ==> published[i] == (i % 2 == 0))
    && (flag <==> |published| % 2 == 1)
  }

  /** setLeaderFlag publishes an event exactly when the flag changes. */
  function Publish(published: seq<bool>, before: bool, after: bool): (r: seq<bool>)
    ensures Alternates(published, before) ==> Alternates(r, after)
    ensures |r| == |published| <==> before == after
  {
    if before == after then published else published + [after]
  }
}
