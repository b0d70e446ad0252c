/** Merging iterator (table/merger.cc): many sorted children move as one cursor over their sorted merge. */
module Merger {
  import opened Keys
  import opened Cursors

  function Merge(a: seq<Entry>, b: seq<Entry>): seq<Entry> {
    if a == [] then b
    else if b == [] then a
    else if Less(a[0].key, b[0].key) then [a[0]] + Merge(a[1..], b)
    else [b[0]] + Merge(a, b[1..])
  }

  function MergeAll(runs: seq<seq<Entry>>): seq<Entry> {
    if runs == [] then [] else Merge(runs[0], MergeAll(runs[1..]))
  }

  predicate NoSharedKey(a: seq<Entry>, b: seq<Entry>) {
    forall i, j :: 0 <= i < |a| && 0 <= j < |b| ==> a[i].key != b[j].key
  }

  predicate Mergeable(runs: seq<seq<Entry>>) {
    && (forall i :: 0 <= i < |runs| ==> Sorted(runs[i]))
    && (forall i, j :: 0 <= i < j < |runs| ==> NoSharedKey(runs[i], runs[j]))
  }

  lemma {:induction false} MergeMembers(a: seq<Entry>, b: seq<Entry>)
    ensures forall e :: e in Merge(a, b) <==> e in a || e in b
  {
    if a != [] && b != [] {
      if Less(a[0].key, b[0].key) {
        MergeMembers(a[1..], b);
        assert forall e :: e in a <==> e == a[0] || e in a[1..];
      } else {
        MergeMembers(a, b[1..]);
        assert forall e :: e in b <==> e == b[0] || e in b[1..];
      }
    }
  }

  lemma {:induction false} MergeSorted(a: seq<Entry>, b: seq<Entry>)
    requires Sorted(a) && Sorted(b) && NoSharedKey(a, b)
    ensures Sorted(Merge(a, b))
  {
    if a != [] && b != [] {
      if Less(a[0].key, b[0].key) {
        MergeSorted(a[1..], b);
        MergeMembers(a[1..], b);
        HeadBeforeTail(a[0], Merge(a[1..], b), a[1..], b);
      } else {
        MergeSorted(a, b[1..]);
        MergeMembers(a, b[1..]);
        assert a[0].key != b[0].key;
        HeadBeforeTail(b[0], Merge(a, b[1..]), a, b[1..]);
      }
    }
  }

  lemma HeadBeforeTail(head: Entry, tail: seq<Entry>, a: seq<Entry>, b: seq<Entry>)
    requires Sorted(tail) && forall e :: e in tail <==> e in a || e in b
    requires forall i :: 0 <= i < |a| ==> Less(head.key, a[i].key)
    requires forall i :: 0 <= i < |b| ==> Less(head.key, b[i].key)
    ensures Sorted([head] + tail)
  {
    forall k | 0 <= k < |tail| ensures Less(head.key, tail[k].key) {
      assert tail[k] in tail;
    }
  }

  lemma {:induction false} MergeAllMembers(runs: seq<seq<Entry>>)
    ensures forall e :: e in MergeAll(runs) <==> exists i :: 0 <= i < |runs| && e in runs[i]
  {
    if runs != [] {
      MergeAllMembers(runs[1..]);
      MergeMembers(runs[0], MergeAll(runs[1..]));
      forall e | e in MergeAll(runs[1..]) ensures exists i :: 0 <= i < |runs| && e in runs[i] {
        var i :| 0 <= i < |runs[1..]| && e in runs[1..][i];
        assert e in runs[i+1];
      }
      forall e, i | 0 <= i < |runs| && e in runs[i] ensures e in MergeAll(runs) {
        if i > 0 {
          assert e in runs[1..][i-1];
        }
      }
    }
  }

  lemma {:induction false} MergeAllSorted(runs: seq<seq<Entry>>)
    requires Mergeable(runs)
    ensures Sorted(MergeAll(runs))
  {
    if runs != [] {
      MergeAllSorted(runs[1..]);
      MergeAllMembers(runs[1..]);
      var tail := MergeAll(runs[1..]);
      forall i, j | 0 <= i < |runs[0]| && 0 <= j < |tail| ensures runs[0][i].key != tail[j].key {
        assert tail[j] in tail;
        var k :| 0 <= k < |runs[1..]| && tail[j] in runs[1..][k];
        var m :| 0 <= m < |runs[k+1]| && runs[k+1][m] == tail[j];
        assert NoSharedKey(runs[0], runs[k+1]);
      }
      MergeSorted(runs[0], tail);
    }
  }

  // ---------- cuts ----------

  /** The first `p` entries of the run are its part of the first `c` entries of the merge. */
  predicate CutAt(es: seq<Entry>, p: nat, merged: seq<Entry>, c: nat) {
    if c < |merged| then IsSeek(es, merged[c].key, p) else p == |es|
  }

  /** How many entries of a run lie at or before a cursor that moves backwards. */
  function UpTo(p: nat, n: nat): nat { if p < n then p + 1 else 0 }

  lemma NextCut(es: seq<Entry>, p: nat, merged: seq<Entry>, a: nat)
    requires Sorted(es) && Sorted(merged) && (forall e :: e in es ==> e in merged)
    requires a < |merged| && CutAt(es, p, merged, a)
    ensures if p < |es| && es[p].key == merged[a].key then CutAt(es, p + 1, merged, a + 1)
            else CutAt(es, p, merged, a + 1)
  {
    assert p + 1 < |es| ==> Less(es[p].key, es[p+1].key);
    forall k | p <= k < |es| && es[k].key != merged[a].key
      ensures a + 1 < |merged| && AtMost(merged[a+1].key, es[k].key)
    {
      assert es[k] in merged;
      var m :| 0 <= m < |merged| && merged[m] == es[k];
      assert m > a;
    }
  }

  lemma PreviousCut(es: seq<Entry>, p: nat, merged: seq<Entry>, a: nat)
    requires Sorted(es) && Sorted(merged) && (forall e :: e in es ==> e in merged)
    requires a < |merged| && CutAt(es, p, merged, a + 1)
    requires forall k :: 0 <= k < |es| ==> es[k].key != merged[a].key
    ensures CutAt(es, p, merged, a)
  {
    forall k | 0 <= k < p ensures Less(es[k].key, merged[a].key) {
      assert es[k] in merged;
      var m :| 0 <= m < |merged| && merged[m] == es[k];
      assert m < a + 1;
    }
    forall k | p <= k < |es| ensures AtMost(merged[a].key, es[k].key) {
    }
  }

  lemma CutAtOwnEntry(es: seq<Entry>, p: nat, merged: seq<Entry>, a: nat)
    requires Sorted(es) && p < |es| && a < |merged| && es[p] == merged[a]
    ensures CutAt(es, p, merged, a)
  {
  }

  datatype Direction = Forward | Reverse

  class MergingIterator {
    const children: seq<Cursor>
    /** The child that holds the current entry, or -1. */
    var current: int
    var direction: Direction
    ghost const merged: seq<Entry>
    ghost var at: nat

    ghost predicate ChildrenOk()
      reads this, children
    {
      && (forall i, j :: 0 <= i < j < |children| ==> children[i] != children[j])
      && (forall i :: 0 <= i < |children| ==> children[i].Ok())
      && Sorted(merged)
      && (forall i, e :: 0 <= i < |children| && e in children[i].entries ==> e in merged)
      && (forall e :: e in merged ==> exists i :: 0 <= i < |children| && e in children[i].entries)
      && (forall i, j :: 0 <= i < j < |children| ==> NoSharedKey(children[i].entries, children[j].entries))
    }

    /** All children stand at the cut before (moving forward) or just behind (moving back) the current entry. */
    ghost predicate Ok()
      reads this, children
    {
      && ChildrenOk() && at <= |merged| && -1 <= current < |children|
      && (current >= 0 <==> at < |merged|)
      && (current >= 0 ==>
            && children[current].Valid() && children[current].entries[children[current].pos] == merged[at]
            && forall i :: 0 <= i < |children| ==>
                 if direction == Forward then CutAt(children[i].entries, children[i].pos, merged, at)
                 else CutAt(children[i].entries, UpTo(children[i].pos, |children[i].entries|), merged, at + 1))
    }

    constructor (children: seq<Cursor>)
      requires forall i, j :: 0 <= i < j < |children| ==> children[i] != children[j]
      requires forall i :: 0 <= i < |children| ==> children[i].Ok()
      requires Mergeable(seq(|children|, i requires 0 <= i < |children| => children[i].entries))
      ensures Ok() && current == -1 && this.children == children
      ensures merged == MergeAll(seq(|children|, i requires 0 <= i < |children| => children[i].entries))
    {
      this.children := children;
      current, direction := -1, Forward;
      ghost var runs := seq(|children|, i requires 0 <= i < |children| => children[i].entries);
      merged := MergeAll(runs);
      at := |MergeAll(runs)|;
      new;
      MergeAllMembers(runs);
      MergeAllSorted(runs);
      forall i, j | 0 <= i < j < |children| ensures NoSharedKey(children[i].entries, children[j].entries) {
        assert NoSharedKey(runs[i], runs[j]);
      }
      forall e | e in merged ensures exists i :: 0 <= i < |children| && e in children[i].entries {
        var i :| 0 <= i < |runs| && e in runs[i];
      }
      forall i, e | 0 <= i < |children| && e in children[i].entries ensures e in merged {
        assert e in runs[i];
      }
    }

    /** The child with the least current key holds the first entry behind the cut. */
    method FindSmallest(ghost c: nat)
      requires ChildrenOk() && c <= |merged|
      requires forall i :: 0 <= i < |children| ==> CutAt(children[i].entries, children[i].pos, merged, c)
      modifies `current
      ensures ChildrenOk() && -1 <= current < |children| && (current >= 0 <==> c < |merged|)
      ensures current >= 0 ==> children[current].Valid() && children[current].entries[children[current].pos] == merged[c]
    {
      var smallest := -1;
      for i := 0 to |children|
        invariant -1 <= smallest < i
        invariant smallest >= 0 ==> children[smallest].Valid()
        invariant forall k :: 0 <= k < i && children[k].Valid() ==>
                    smallest >= 0 && AtMost(children[smallest].Key(), children[k].Key())
      {
        if children[i].Valid() {
          if smallest == -1 {
            smallest := i;
          } else if Less(children[i].Key(), children[smallest].Key()) {
            smallest := i;
          }
        }
      }
      current := smallest;
      SmallestHolds(c);
    }

    lemma SmallestHolds(c: nat)
      requires ChildrenOk() && c <= |merged| && -1 <= current < |children|
      requires forall i :: 0 <= i < |children| ==> CutAt(children[i].entries, children[i].pos, merged, c)
      requires current >= 0 ==> children[current].Valid()
      requires forall k :: 0 <= k < |children| && children[k].Valid() ==>
                 current >= 0 && AtMost(children[current].Key(), children[k].Key())
      ensures current >= 0 <==> c < |merged|
      ensures current >= 0 ==> children[current].entries[children[current].pos] == merged[c]
    {
      if c < |merged| {
        assert merged[c] in merged;
        var i :| 0 <= i < |children| && merged[c] in children[i].entries;
        var k :| 0 <= k < |children[i].entries| && children[i].entries[k] == merged[c];
        assert children[i].pos <= k;
        SmallestIsNext(children[current].entries, children[current].pos, children[i].entries, children[i].pos, k, merged, c);
      }
    }

    /** The child with the greatest current key holds the last entry before the cut. */
    method FindLargest(ghost c: nat)
      requires ChildrenOk() && c <= |merged|
      requires forall i :: 0 <= i < |children| ==>
                 CutAt(children[i].entries, UpTo(children[i].pos, |children[i].entries|), merged, c)
      modifies `current
      ensures ChildrenOk() && -1 <= current < |children| && (current >= 0 <==> c > 0)
      ensures current >= 0 ==> children[current].Valid() && children[current].entries[children[current].pos] == merged[c-1]
    {
      var largest := -1;
      for i := |children| downto 0
        invariant largest == -1 || i <= largest < |children|
        invariant largest >= 0 ==> children[largest].Valid()
        invariant forall k :: i <= k < |children| && children[k].Valid() ==>
                    largest >= 0 && AtMost(children[k].Key(), children[largest].Key())
      {
        if children[i].Valid() {
          if largest == -1 {
            largest := i;
          } else if Less(children[largest].Key(), children[i].Key()) {
            largest := i;
          }
        }
      }
      current := largest;
      LargestHolds(c);
    }

    lemma LargestHolds(c: nat)
      requires ChildrenOk() && c <= |merged| && -1 <= current < |children|
      requires forall i :: 0 <= i < |children| ==>
                 CutAt(children[i].entries, UpTo(children[i].pos, |children[i].entries|), merged, c)
      requires current >= 0 ==> children[current].Valid()
      requires forall k :: 0 <= k < |children| && children[k].Valid() ==>
                 current >= 0 && AtMost(children[k].Key(), children[current].Key())
      ensures current >= 0 <==> c > 0
      ensures current >= 0 ==> children[current].entries[children[current].pos] == merged[c-1]
    {
      if current >= 0 {
        CutBehindEntry(children[current].entries, children[current].pos, merged, c);
      }
      if c > 0 {
        assert merged[c-1] in merged;
        var i :| 0 <= i < |children| && merged[c-1] in children[i].entries;
        var k :| 0 <= k < |children[i].entries| && children[i].entries[k] == merged[c-1];
        LastBeforeCut(children[i].entries, children[i].pos, k, merged, c);
        LargestIsPrevious(children[current].entries, children[current].pos, children[i].entries, children[i].pos, k, merged, c);
      }
    }

    method SeekToFirst()
      requires Ok()
      modifies this, children
      ensures Ok() && at == 0
    {
      hide CutAt, NoSharedKey, Sorted;
      for i := 0 to |children|
        invariant ChildrenOk()
        invariant forall k :: 0 <= k < i ==> children[k].pos == 0
      {
        children[i].SeekToFirst();
      }
      forall i | 0 <= i < |children| ensures CutAt(children[i].entries, children[i].pos, merged, 0) {
        StartCut(children[i].entries, merged);
      }
      FindSmallest(0);
      direction, at := Forward, 0;
    }

    method SeekToLast()
      requires Ok()
      modifies this, children
      ensures Ok() && at == LastPosition(|merged|)
    {
      hide NoSharedKey;
      for i := 0 to |children|
        invariant ChildrenOk()
        invariant forall k :: 0 <= k < i ==> children[k].pos == LastPosition(|children[k].entries|)
      {
        children[i].SeekToLast();
      }
      FindLargest(|merged|);
      direction, at := Reverse, LastPosition(|merged|);
    }

    method Seek(key: InternalKey)
      requires Ok()
      modifies this, children
      ensures Ok() && IsSeek(merged, key, at)
    {
      for i := 0 to |children|
        invariant ChildrenOk()
        invariant forall k :: 0 <= k < i ==> IsSeek(children[k].entries, key, children[k].pos)
      {
        children[i].Seek(key);
      }
      ghost var c := SeekPosition(merged, key);
      forall i | 0 <= i < |children| ensures CutAt(children[i].entries, children[i].pos, merged, c) {
        SeekCut(children[i].entries, children[i].pos, merged, c, key);
      }
      FindSmallest(c);
      direction, at := Forward, c;
    }

    /** Seeks every other child to the current key, for a turn to moving forward. */
    method PositionOthersAfter()
      requires Ok() && current >= 0 && direction == Reverse
      modifies `direction, children
      ensures ChildrenOk() && direction == Forward
      ensures children[current].Valid() && children[current].pos == old(children[current].pos)
      ensures forall i :: 0 <= i < |children| ==> CutAt(children[i].entries, children[i].pos, merged, at)
    {
      hide NoSharedKey;
      var key := children[current].Key();
      CutAtOwnEntry(children[current].entries, children[current].pos, merged, at);
      for i := 0 to |children|
        invariant ChildrenOk() && children[current].pos == old(children[current].pos)
        invariant forall k :: 0 <= k < i ==> CutAt(children[k].entries, children[k].pos, merged, at)
      {
        if i != current {
          children[i].Seek(key);
          LacksCurrentKey(children, i, current, merged[at]);
          if children[i].Valid() && children[i].Key() == key {
            assert false;  // no two children share a key
          }
        }
      }
      direction := Forward;
    }

    /** Seeks every other child to the current key and steps back, for a turn to moving backward. */
    method PositionOthersBefore()
      requires Ok() && current >= 0 && direction == Forward
      modifies `direction, children
      ensures ChildrenOk() && direction == Reverse
      ensures children[current].Valid() && children[current].pos == old(children[current].pos)
      ensures forall i :: 0 <= i < |children| && i != current ==>
                CutAt(children[i].entries, UpTo(children[i].pos, |children[i].entries|), merged, at)
    {
      var key := children[current].Key();
      for i := 0 to |children|
        invariant ChildrenOk() && children[current].pos == old(children[current].pos)
        invariant forall k :: 0 <= k < i && k != current ==>
                    CutAt(children[k].entries, UpTo(children[k].pos, |children[k].entries|), merged, at)
      {
        if i != current {
          children[i].Seek(key);
          if children[i].Valid() {
            children[i].Prev();
          } else {
            children[i].SeekToLast();
          }
        }
      }
      direction := Reverse;
    }

    lemma OthersBeforeCurrent()
      requires Ok() && current >= 0 && direction == Reverse
      ensures forall i :: 0 <= i < |children| && i != current ==>
                CutAt(children[i].entries, UpTo(children[i].pos, |children[i].entries|), merged, at)
    {
      forall i | 0 <= i < |children| && i != current
        ensures CutAt(children[i].entries, UpTo(children[i].pos, |children[i].entries|), merged, at)
      {
        LacksCurrentKey(children, i, current, merged[at]);
        PreviousCut(children[i].entries, UpTo(children[i].pos, |children[i].entries|), merged, at);
      }
    }

    method Next()
      requires Ok() && current >= 0
      modifies this, children
      ensures Ok() && at == old(at) + 1
    {
      hide CutAt, NoSharedKey, Sorted;
      if direction != Forward {
        PositionOthersAfter();
      }
      children[current].Next();
      forall i | 0 <= i < |children| ensures CutAt(children[i].entries, children[i].pos, merged, at + 1) {
        if i == current {
          NextCut(children[i].entries, children[i].pos - 1, merged, at);
        } else {
          LacksCurrentKey(children, i, current, merged[at]);
          NextCut(children[i].entries, children[i].pos, merged, at);
        }
      }
      FindSmallest(at + 1);
      at := at + 1;
    }

    method Prev()
      requires Ok() && current >= 0
      modifies this, children
      ensures Ok() && at == StepBack(old(at), |merged|)
    {
      hide CutAt, NoSharedKey, Sorted;
      if direction != Reverse {
        PositionOthersBefore();
      } else {
        OthersBeforeCurrent();
      }
      CutAtOwnEntry(children[current].entries, children[current].pos, merged, at);
      children[current].Prev();
      FindLargest(at);
      at := StepBack(at, |merged|);
    }
  }

  lemma SmallestIsNext(es: seq<Entry>, p: nat, os: seq<Entry>, q: nat, k: nat, merged: seq<Entry>, c: nat)
    requires Sorted(os) && Sorted(merged) && c < |merged| && p < |es| && q <= k < |os| && os[k] == merged[c]
    requires CutAt(es, p, merged, c) && AtMost(es[p].key, os[q].key) && es[p] in merged
    ensures es[p] == merged[c]
  {
    var m :| 0 <= m < |merged| && merged[m] == es[p];
  }

  lemma CutBehindEntry(es: seq<Entry>, p: nat, merged: seq<Entry>, c: nat)
    requires Sorted(merged) && p < |es| && es[p] in merged && CutAt(es, p + 1, merged, c)
    ensures c > 0
  {
  }

  lemma LastBeforeCut(os: seq<Entry>, q: nat, k: nat, merged: seq<Entry>, c: nat)
    requires Sorted(merged) && 0 < c <= |merged| && k < |os| && os[k] == merged[c-1]
    requires CutAt(os, UpTo(q, |os|), merged, c)
    ensures k <= q < |os|
  {
    assert c < |merged| ==> Less(merged[c-1].key, merged[c].key);
  }

  lemma LargestIsPrevious(es: seq<Entry>, p: nat, os: seq<Entry>, q: nat, k: nat, merged: seq<Entry>, c: nat)
    requires Sorted(os) && Sorted(merged) && 0 < c <= |merged| && p < |es| && k < |os| && os[k] == merged[c-1]
    requires q < |os| && k <= q && AtMost(os[q].key, es[p].key) && es[p] in merged
    requires CutAt(es, p + 1, merged, c)
    ensures es[p] == merged[c-1]
  {
    var m :| 0 <= m < |merged| && merged[m] == es[p];
  }

  lemma StartCut(es: seq<Entry>, merged: seq<Entry>)
    requires Sorted(merged) && forall e :: e in es ==> e in merged
    ensures CutAt(es, 0, merged, 0)
  {
    forall k | 0 <= k < |es| ensures |merged| > 0 && AtMost(merged[0].key, es[k].key) {
      assert es[k] in merged;
    }
    assert |es| > 0 ==> es[0] in merged;
  }

  lemma {:induction false} SeekPosition(es: seq<Entry>, key: InternalKey) returns (c: nat)
    requires Sorted(es)
    ensures IsSeek(es, key, c)
  {
    if es == [] || AtMost(key, es[0].key) {
      c := 0;
    } else {
      c := SeekPosition(es[1..], key);
      c := c + 1;
    }
  }

  lemma SeekCut(es: seq<Entry>, p: nat, merged: seq<Entry>, c: nat, key: InternalKey)
    requires Sorted(es) && Sorted(merged) && (forall e :: e in es ==> e in merged)
    requires IsSeek(es, key, p) && IsSeek(merged, key, c)
    ensures CutAt(es, p, merged, c)
  {
    forall k | p <= k < |es| ensures c < |merged| && AtMost(merged[c].key, es[k].key) {
      assert es[k] in merged;
      var m :| 0 <= m < |merged| && merged[m] == es[k];
    }
    assert p < |es| ==> es[p] in merged;
  }

  lemma LacksCurrentKey(children: seq<Cursor>, i: nat, c: nat, e: Entry)
    requires i < |children| && c < |children| && i != c && e in children[c].entries
    requires forall i, j :: 0 <= i < j < |children| ==> NoSharedKey(children[i].entries, children[j].entries)
    ensures forall k :: 0 <= k < |children[i].entries| ==> children[i].entries[k].key != e.key
  {
    var m :| 0 <= m < |children[c].entries| && children[c].entries[m] == e;
    if i < c {
      assert NoSharedKey(children[i].entries, children[c].entries);
    } else {
      assert NoSharedKey(children[c].entries, children[i].entries);
    }
  }
}
