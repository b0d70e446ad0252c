/** Two-level iterator (table/two_level_iterator.cc): an index whose keys bound its blocks moves as one cursor over
    the concatenation of the blocks. */
module TwoLevel {
  import opened Keys
  import opened Cursors

  /** The first `n` blocks, one behind the other. */
  function Flat(index: seq<Entry>, blockOf: Bytes -> seq<Entry>, n: nat): seq<Entry>
    requires n <= |index|
  {
    if n == 0 then [] else Flat(index, blockOf, n - 1) + blockOf(index[n-1].value)
  }

  /** Every index key is at or after the keys of its block and before those of the next. */
  ghost predicate Bounds(index: seq<Entry>, blockOf: Bytes -> seq<Entry>) {
    && Sorted(index)
    && (forall i :: 0 <= i < |index| ==> Sorted(blockOf(index[i].value)))
    && (forall i, e :: 0 <= i < |index| && e in blockOf(index[i].value) ==> AtMost(e.key, index[i].key))
    && (forall i, e :: 0 <= i < |index| - 1 && e in blockOf(index[i+1].value) ==> Less(index[i].key, e.key))
  }

  lemma {:induction false} FlatWithin(index: seq<Entry>, blockOf: Bytes -> seq<Entry>, n: nat)
    requires Bounds(index, blockOf) && 0 < n <= |index|
    ensures forall e :: e in Flat(index, blockOf, n) ==> AtMost(e.key, index[n-1].key)
  {
    if n > 1 {
      FlatWithin(index, blockOf, n - 1);
      assert Less(index[n-2].key, index[n-1].key);
    }
  }

  lemma {:induction false} FlatSorted(index: seq<Entry>, blockOf: Bytes -> seq<Entry>, n: nat)
    requires Bounds(index, blockOf) && n <= |index|
    ensures Sorted(Flat(index, blockOf, n))
  {
    if n > 1 {
      FlatSorted(index, blockOf, n - 1);
      FlatWithin(index, blockOf, n - 1);
      var before, block := Flat(index, blockOf, n - 1), blockOf(index[n-1].value);
      forall i, j | 0 <= i < |before| && 0 <= j < |block| ensures Less(before[i].key, block[j].key) {
        assert before[i] in before && block[j] in blockOf(index[n-2+1].value);
      }
    }
  }

  lemma {:induction false} FlatExtends(index: seq<Entry>, blockOf: Bytes -> seq<Entry>, m: nat, n: nat)
    requires m <= n <= |index|
    ensures Flat(index, blockOf, m) <= Flat(index, blockOf, n)
  {
    if m < n {
      FlatExtends(index, blockOf, m, n - 1);
    }
  }

  class TwoLevelIterator {
    const index: Cursor
    const blockOf: Bytes -> seq<Entry>
    var data: Cursor?
    var handle: Bytes

    ghost predicate Ready()
      reads this, index, data
    {
      && index.Ok() && Bounds(index.entries, blockOf) && data != index
      && (data != null ==>
            && index.Valid() && data.Ok() && handle == index.entries[index.pos].value && data.entries == blockOf(handle))
    }

    ghost predicate Ok()
      reads this, index, data
    {
      Ready() && (data != null ==> data.Valid())
    }

    predicate Valid()
      reads this, data
    {
      data != null && data.Valid()
    }

    ghost function All(): seq<Entry>
      reads this
    {
      Flat(index.entries, blockOf, |index.entries|)
    }

    /** How many entries lie before the iterator; the number of all entries when it has run off the end. */
    ghost function At(): nat
      requires Ready()
      reads this, index, data
    {
      if data == null then |All()|
      else |Flat(index.entries, blockOf, index.pos)| + data.pos
    }

    constructor (index: Cursor, blockOf: Bytes -> seq<Entry>)
      requires index.Ok() && Bounds(index.entries, blockOf)
      ensures Ok() && !Valid() && this.index == index && this.blockOf == blockOf && data == null
    {
      this.index, this.blockOf := index, blockOf;
      data, handle := null, [];
    }

    /** The current entry is the one its position in the concatenation says. */
    method Current() returns (e: Entry)
      requires Ok() && Valid()
      ensures At() < |All()| && e == All()[At()]
    {
      FlatExtends(index.entries, blockOf, index.pos + 1, |index.entries|);
      e := Entry(data.Key(), data.Value());
    }

    method InitDataBlock()
      requires index.Ok() && Bounds(index.entries, blockOf) && data != index
      requires data != null ==> data.Ok() && data.entries == blockOf(handle)
      modifies `data, `handle
      ensures Ready() && (data == null <==> !index.Valid())
      ensures data == null || data == old(data) || fresh(data)
    {
      if !index.Valid() {
        data := null;
      } else {
        var newHandle := index.Value();
        if data != null && newHandle == handle {
          // already the right block
        } else {
          data := new Cursor(blockOf(newHandle));
          handle := newHandle;
        }
      }
    }

    method SkipEmptyDataBlocksForward()
      requires Ready() && (data == null ==> !index.Valid())
      modifies this, index, data
      ensures Ok() && At() == old(At())
      ensures data == null || data == old(data) || fresh(data)
    {
      ghost var t := At();
      ghost var first := data;
      while data == null || !data.Valid()
        invariant Ready() && (data == null ==> !index.Valid()) && At() == t
        invariant data == null || data == first || fresh(data)
        decreases if data == null then 0 else 1 + |index.entries| - index.pos
      {
        if !index.Valid() {
          data := null;
          return;
        }
        index.Next();
        InitDataBlock();
        if data != null {
          data.SeekToFirst();
        }
      }
    }

    method SeekToFirst()
      requires Ok()
      modifies this, index, data
      ensures Ok() && At() == 0
      ensures data == null || data == old(data) || fresh(data)
    {
      index.SeekToFirst();
      InitDataBlock();
      if data != null {
        data.SeekToFirst();
      }
      SkipEmptyDataBlocksForward();
    }

    method Next()
      requires Ok() && Valid()
      modifies this, index, data
      ensures Ok() && At() == old(At()) + 1
      ensures data == null || data == old(data) || fresh(data)
    {
      data.Next();
      SkipEmptyDataBlocksForward();
    }

    method Seek(target: InternalKey)
      requires Ok()
      modifies this, index, data
      ensures Ok() && IsSeek(All(), target, At())
      ensures data == null || data == old(data) || fresh(data)
    {
      index.Seek(target);
      InitDataBlock();
      if data != null {
        data.Seek(target);
      }
      SeekInFlat(index.entries, blockOf, index.pos, if data == null then 0 else data.pos, target);
      SkipEmptyDataBlocksForward();
    }

    /** Steps back over empty blocks; a block left at its front ends at the last entry of the block before. */
    method SkipEmptyDataBlocksBackward(ghost c: nat)
      requires Ready() && (data == null ==> !index.Valid())
      requires c == if data == null then 0
                    else |Flat(index.entries, blockOf, index.pos)| + if data.Valid() then data.pos + 1 else 0
      modifies this, index, data
      ensures Ok() && At() == StepBack(c, |All()|)
      ensures data == null || data == old(data) || fresh(data)
    {
      ghost var first := data;
      while data == null || !data.Valid()
        invariant Ready() && (data == null ==> !index.Valid())
        invariant c == if data == null then 0
                       else |Flat(index.entries, blockOf, index.pos)| + if data.Valid() then data.pos + 1 else 0
        invariant data == null || data == first || fresh(data)
        decreases if data == null then 0 else 1 + index.pos
      {
        if !index.Valid() {
          data := null;
          return;
        }
        index.Prev();
        InitDataBlock();
        if data != null {
          data.SeekToLast();
        }
      }
      FlatExtends(index.entries, blockOf, index.pos + 1, |index.entries|);
    }

    method SeekToLast()
      requires Ok()
      modifies this, index, data
      ensures Ok() && At() == LastPosition(|All()|)
      ensures data == null || data == old(data) || fresh(data)
    {
      index.SeekToLast();
      InitDataBlock();
      if data != null {
        data.SeekToLast();
      }
      SkipEmptyDataBlocksBackward(|All()|);
    }

    method Prev()
      requires Ok() && Valid()
      modifies this, index, data
      ensures Ok() && At() == StepBack(old(At()), |All()|)
      ensures data == null || data == old(data) || fresh(data)
    {
      ghost var c := At();
      data.Prev();
      SkipEmptyDataBlocksBackward(c);
    }
  }

  lemma {:induction false} FlatBeyond(index: seq<Entry>, blockOf: Bytes -> seq<Entry>, i: nat, n: nat)
    requires Bounds(index, blockOf) && i < n <= |index|
    ensures |Flat(index, blockOf, i + 1)| <= |Flat(index, blockOf, n)|
    ensures forall k :: |Flat(index, blockOf, i + 1)| <= k < |Flat(index, blockOf, n)|
                        ==> Less(index[i].key, Flat(index, blockOf, n)[k].key)
  {
    if i + 1 < n {
      FlatBeyond(index, blockOf, i, n - 1);
      var before, block := Flat(index, blockOf, n - 1), blockOf(index[n-1].value);
      forall j | 0 <= j < |block| ensures Less(index[i].key, block[j].key) {
        assert block[j] in blockOf(index[n-2+1].value);
        assert i == n - 2 || Less(index[i].key, index[n-2].key);
      }
    }
  }

  lemma BeforeSeek(index: seq<Entry>, blockOf: Bytes -> seq<Entry>, i: nat, target: InternalKey)
    requires Bounds(index, blockOf) && IsSeek(index, target, i)
    ensures forall e :: e in Flat(index, blockOf, i) ==> Less(e.key, target)
  {
    if i > 0 {
      FlatWithin(index, blockOf, i);
    }
  }

  /** Seeking the index and then its block is seeking the concatenation. */
  lemma SeekInFlat(index: seq<Entry>, blockOf: Bytes -> seq<Entry>, i: nat, p: nat, target: InternalKey)
    requires Bounds(index, blockOf) && IsSeek(index, target, i)
    requires if i < |index| then IsSeek(blockOf(index[i].value), target, p) else p == 0
    ensures IsSeek(Flat(index, blockOf, |index|), target, |Flat(index, blockOf, i)| + p)
  {
    hide Bounds, Sorted, Flat;
    var all, before := Flat(index, blockOf, |index|), Flat(index, blockOf, i);
    BeforeSeek(index, blockOf, i, target);
    FlatExtends(index, blockOf, i, |index|);
    assert forall k :: 0 <= k < |before| ==> all[k] == before[k] && before[k] in before;
    if i < |index| {
      FlatExtends(index, blockOf, i + 1, |index|);
      FlatBeyond(index, blockOf, i, |index|);
      OneMoreBlock(index, blockOf, i);
      SeekInBlock(all, before, blockOf(index[i].value), index[i].key, p, target);
    }
  }

  lemma OneMoreBlock(index: seq<Entry>, blockOf: Bytes -> seq<Entry>, i: nat)
    requires i < |index|
    ensures Flat(index, blockOf, i + 1) == Flat(index, blockOf, i) + blockOf(index[i].value)
  {
  }

  lemma SeekInBlock(all: seq<Entry>, before: seq<Entry>, block: seq<Entry>, bound: InternalKey, p: nat, target: InternalKey)
    requires before + block <= all && IsSeek(block, target, p) && AtMost(target, bound)
    requires forall k :: 0 <= k < |before| ==> Less(all[k].key, target)
    requires forall k :: |before| + |block| <= k < |all| ==> Less(bound, all[k].key)
    ensures IsSeek(all, target, |before| + p)
  {
    assert forall k :: |before| <= k < |before| + |block| ==> all[k] == block[k-|before|];
  }
}
