/** Sequences without repetition: wait queues, and the sectors of a file. */
module Sequences {
  ghost predicate Distinct(q: seq<nat>) {
    forall i, j :: 0 <= i < j < |q| ==> q[i] != q[j]
  }

  /** All but the first, if there is a first. */
  function Rest(q: seq<nat>): seq<nat> {
    if q == [] then [] else q[1..]
  }

  lemma PopLeavesTheRest(q: seq<nat>)
    requires q != [] && Distinct(q)
    ensures Distinct(q[1..]) && forall u: nat :: u in q[1..] <==> u in q && u != q[0]
  {
    assert q == [q[0]] + q[1..];
    assert forall i :: 0 < i < |q| ==> q[0] != q[i];
  }
}
