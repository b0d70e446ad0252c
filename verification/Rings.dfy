/** Places on a circular doubly linked list with a dummy head, as the snapshot list (db/snapshot.h) and the recency
    list of the cache (util/cache.cc) are. */
module Rings {
  /** Place `k` on the ring; the head stands before the first node and after the last. */
  function At<T>(head: T, nodes: seq<T>, k: int): T { if 0 <= k < |nodes| then nodes[k] else head }

  predicate Distinct<T(==)>(nodes: seq<T>) { forall i, j :: 0 <= i < j < |nodes| ==> nodes[i] != nodes[j] }

  function Without<T>(nodes: seq<T>, i: nat): seq<T>
    requires i < |nodes|
  {
    nodes[..i] + nodes[i+1..]
  }

  lemma WithoutDistinct<T>(nodes: seq<T>, i: nat)
    requires Distinct(nodes) && i < |nodes|
    ensures Distinct(Without(nodes, i)) && forall n :: n in Without(nodes, i) <==> n in nodes && n != nodes[i]
  {
    var rest := Without(nodes, i);
    forall k | 0 <= k < |rest| ensures rest[k] == nodes[if k < i then k else k + 1] {
    }
    forall n | n in nodes && n != nodes[i] ensures n in rest {
      var k :| 0 <= k < |nodes| && nodes[k] == n;
      assert rest[if k < i then k else k - 1] == n;
    }
  }
}
