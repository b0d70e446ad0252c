/** The list of live snapshots (db/snapshot.h). */
module Snapshots {
  import opened Keys
  import opened Rings

  class SnapshotImpl {
    const number: Sequence
    var prev: SnapshotImpl
    var next: SnapshotImpl

    constructor (number: Sequence)
      ensures this.number == number && prev == this && next == this
    {
      this.number, prev, next := number, this, this;
    }
  }

  function Numbers(nodes: seq<SnapshotImpl>): seq<Sequence> {
    seq(|nodes|, i requires 0 <= i < |nodes| => nodes[i].number)
  }

  predicate Ascending(numbers: seq<Sequence>) {
    forall i, j :: 0 <= i < j < |numbers| ==> numbers[i] <= numbers[j]
  }

  class SnapshotList {
    /** The dummy head. */
    const list: SnapshotImpl
    /** The live snapshots, oldest first. */
    ghost var nodes: seq<SnapshotImpl>

    ghost predicate Valid()
      reads this, list, nodes
    {
      && list !in nodes && Distinct(nodes) && Ascending(Numbers(nodes))
      && (forall k :: -1 <= k < |nodes| ==> At(list, nodes, k).next == At(list, nodes, k + 1))
      && (forall k :: 0 <= k <= |nodes| ==> At(list, nodes, k).prev == At(list, nodes, k - 1))
    }

    constructor ()
      ensures Valid() && nodes == [] && fresh(list)
    {
      list := new SnapshotImpl(0);
      nodes := [];
    }

    predicate Empty()
      requires Valid()
      reads this, list, nodes
      ensures Empty() <==> nodes == []
    {
      assert At(list, nodes, -1).next == At(list, nodes, 0);
      list.next == list
    }

    /** No live snapshot is older. */
    function Oldest(): (s: SnapshotImpl)
      requires Valid() && !Empty()
      reads this, list, nodes
      ensures s == nodes[0] && forall t :: t in nodes ==> s.number <= t.number
    {
      assert At(list, nodes, -1).next == At(list, nodes, 0) && Numbers(nodes)[0] == nodes[0].number;
      assert forall t :: t in nodes ==> nodes[0].number <= t.number by {
        forall t | t in nodes ensures nodes[0].number <= t.number {
          var i :| 0 <= i < |nodes| && nodes[i] == t;
          assert Numbers(nodes)[i] == t.number;
        }
      }
      list.next
    }

    function Newest(): (s: SnapshotImpl)
      requires Valid() && !Empty()
      reads this, list, nodes
      ensures s == nodes[|nodes|-1]
    {
      assert At(list, nodes, |nodes|).prev == At(list, nodes, |nodes| - 1);
      list.prev
    }

    /** Sequence numbers never go back from one snapshot to the next. */
    method New(number: Sequence) returns (s: SnapshotImpl)
      requires Valid() && (nodes != [] ==> nodes[|nodes|-1].number <= number)
      modifies this, list, nodes
      ensures Valid() && fresh(s) && s.number == number && nodes == old(nodes) + [s]
    {
      hide Ascending, Numbers;
      s := new SnapshotImpl(number);
      ghost var was, n := nodes, |nodes|;
      assert At(list, was, n) == list && list.prev == At(list, was, n - 1);
      s.next := list;
      s.prev := list.prev;
      s.prev.next := s;
      s.next.prev := s;
      nodes := nodes + [s];
      assert forall k :: -1 <= k < n ==> At(list, nodes, k) == At(list, was, k);
      assert forall k :: -1 <= k < n - 1 ==> At(list, was, k) != At(list, was, n - 1);
      NewestLast(was, s);
    }

    method Delete(s: SnapshotImpl, ghost i: nat)
      requires Valid() && i < |nodes| && s == nodes[i]
      modifies this, list, nodes
      ensures Valid() && nodes == Without(old(nodes), i)
    {
      hide Ascending, Numbers;
      ghost var was := nodes;
      assert At(list, was, i) == s && s.prev == At(list, was, i - 1) && s.next == At(list, was, i + 1);
      WithoutDistinct(was, i);
      WithoutAscends(was, i);
      s.prev.next := s.next;
      s.next.prev := s.prev;
      nodes := Without(was, i);
      assert forall k :: -1 <= k <= |nodes| ==> At(list, nodes, k) == At(list, was, if k < i then k else k + 1);
    }

    /** The bound compactions drop entries by: the oldest live snapshot, or the last write when there is none. */
    method SmallestSnapshot(lastSequence: Sequence) returns (r: Sequence)
      requires Valid() && forall s :: s in nodes ==> s.number <= lastSequence
      ensures r <= lastSequence && (forall s :: s in nodes ==> r <= s.number)
      ensures r == if nodes == [] then lastSequence else Numbers(nodes)[0]
    {
      r := if Empty() then lastSequence else Oldest().number;
    }
  }

  lemma NewestLast(nodes: seq<SnapshotImpl>, s: SnapshotImpl)
    requires Ascending(Numbers(nodes)) && (nodes != [] ==> nodes[|nodes|-1].number <= s.number)
    ensures Ascending(Numbers(nodes + [s])) && Numbers(nodes + [s]) == Numbers(nodes) + [s.number]
  {
    assert Numbers(nodes + [s]) == Numbers(nodes) + [s.number];
    assert nodes != [] ==> Numbers(nodes)[|nodes|-1] == nodes[|nodes|-1].number;
  }

  lemma WithoutAscends(nodes: seq<SnapshotImpl>, i: nat)
    requires Ascending(Numbers(nodes)) && i < |nodes|
    ensures Ascending(Numbers(Without(nodes, i))) && Numbers(Without(nodes, i)) == Without(Numbers(nodes), i)
  {
    var rest := Without(nodes, i);
    forall k | 0 <= k < |rest| ensures Numbers(rest)[k] == Numbers(nodes)[if k < i then k else k + 1] {
    }
    assert Numbers(rest) == Without(Numbers(nodes), i);
  }
}
