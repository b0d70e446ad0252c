/** table/table_builder.cc */
module TableBuilders {
  import opened Keys
  import opened Coding
  import opened Bloom
  import opened BlockFormat
  import opened BlockBuilders
  import opened DbFormat
  import opened FilterBlocks
  import opened TableFormat

  /** What the builder's fields mean.  While an index entry is pending, no item waits for a block, and the last block
      is not in the index yet. */
  ghost predicate Building(file: Bytes, crc: Crc, blocks: seq<DataBlock>, current: seq<Item>, index: seq<Item>,
                           lastKey: Bytes, pending: bool, pendingHandle: Handle) {
    && AllStored(file, crc, blocks) && OffsetsAscend(blocks, |file|) && AllKeysLong(current) && Increasing(current, InternalLess)
    && Chained(Groups(blocks, current)) && IndexOk(blocks, Groups(blocks, current), index)
    && Increasing(index, InternalLess)
    && |index| == |blocks| - (if pending then 1 else 0)
    && (if pending then current == [] && blocks != [] && pendingHandle == blocks[|blocks|-1].handle
        else current == [] ==> blocks == [])
    && (if current != [] then lastKey == LastKey(current)
        else blocks != [] ==> lastKey == LastKey(blocks[|blocks|-1].items))
  }

  /** The filter was given every key with the offset its block is at, or will be. */
  ghost predicate Filtered(added: set<(nat, Bytes)>, blocks: seq<DataBlock>, current: seq<Item>, offset: nat) {
    && (forall i, j :: 0 <= i < |blocks| && 0 <= j < |blocks[i].items| ==>
          (blocks[i].handle.offset, blocks[i].items[j].key) in added)
    && (forall j :: 0 <= j < |current| ==> (offset, current[j].key) in added)
  }

  lemma EmptyTable(crc: Crc, h: Handle)
    ensures Building([], crc, [], [], [], [], false, h)
  {
  }

  /** A key after all others joins the items waiting, once a pending index entry is made. */
  lemma AddsKey(file: Bytes, crc: Crc, blocks: seq<DataBlock>, current: seq<Item>, index: seq<Item>, lastKey: Bytes,
                pending: bool, h: Handle, item: Item, separator: Bytes)
    requires Building(file, crc, blocks, current, index, lastKey, pending, h)
    requires |item.key| >= TRAILER && (current != [] || blocks != [] ==> InternalLess(lastKey, item.key))
    requires pending ==> |separator| >= TRAILER && Separates(lastKey, item.key, separator)
    ensures var newIndex := if pending then index + [Item(separator, EncodeHandle(h))] else index;
      && Building(file, crc, blocks, current + [item], newIndex, item.key, false, h)
      && (pending && index != [] ==> InternalLess(LastKey(index), separator))
  {
    hide Stored, KeyOf, Groups, IsComparator, EncodeHandle;
    ChainedMore(blocks, current, item, lastKey);
    IncreasingMore(current, item, lastKey);
    IndexMore(file, crc, blocks, current, index, lastKey, pending, h, item, separator);
    IncreasingIndex(index, separator, EncodeHandle(h), pending);
  }

  lemma IncreasingMore(current: seq<Item>, item: Item, lastKey: Bytes)
    requires Increasing(current, InternalLess) && (current != [] ==> lastKey == LastKey(current) && InternalLess(lastKey, item.key))
    ensures Increasing(current + [item], InternalLess)
  {
    InternalLessOrders();
  }

  lemma ChainedMore(blocks: seq<DataBlock>, current: seq<Item>, item: Item, lastKey: Bytes)
    requires Chained(Groups(blocks, current))
    requires current == [] && blocks != [] ==>
               blocks[|blocks|-1].items != [] && lastKey == LastKey(blocks[|blocks|-1].items) && InternalLess(lastKey, item.key)
    ensures Chained(Groups(blocks, current + [item]))
  {
    hide KeyOf;
    var gs, more := Groups(blocks, current), Groups(blocks, current + [item]);
    forall i | 0 < i < |more| ensures InternalLess(LastKey(more[i-1]), more[i][0].key) {
      if i < |gs| {
        assert InternalLess(LastKey(gs[i-1]), gs[i][0].key);
      }
    }
  }

  lemma IndexMore(file: Bytes, crc: Crc, blocks: seq<DataBlock>, current: seq<Item>, index: seq<Item>, lastKey: Bytes,
                  pending: bool, h: Handle, item: Item, separator: Bytes)
    requires Building(file, crc, blocks, current, index, lastKey, pending, h)
    requires pending ==> |separator| >= TRAILER && Separates(lastKey, item.key, separator)
    requires Chained(Groups(blocks, current + [item])) && Increasing(current + [item], InternalLess)
    ensures IndexOk(blocks, Groups(blocks, current + [item]), if pending then index + [Item(separator, EncodeHandle(h))] else index)
    ensures pending && index != [] ==> InternalLess(LastKey(index), separator)
  {
    hide Stored, KeyOf, IsBlock;
    var newIndex := if pending then index + [Item(separator, EncodeHandle(h))] else index;
    var gs, more := Groups(blocks, current), Groups(blocks, current + [item]);
    forall i | 0 <= i < |newIndex|
      ensures newIndex[i].value == EncodeHandle(blocks[i].handle) && IndexKey(more, i, newIndex[i].key)
    {
      if i < |index| {
        assert IndexKey(gs, i, index[i].key);
      }
    }
    if pending && index != [] {
      var n := |index|;
      forall j | 0 <= j < |more| ensures Increasing(more[j], InternalLess) {
        StoredIncreases(file, crc, blocks, current + [item], j);
      }
      IndexAscends(more, n - 1, index[n-1].key, separator);
    }
  }

  lemma StoredIncreases(file: Bytes, crc: Crc, blocks: seq<DataBlock>, current: seq<Item>, j: nat)
    requires AllStored(file, crc, blocks) && Increasing(current, InternalLess) && j < |Groups(blocks, current)|
    ensures Increasing(Groups(blocks, current)[j], InternalLess)
  {
    hide IsBlock;
    assert j < |blocks| ==> Stored(file, crc, blocks[j]);
  }

  lemma IncreasingIndex(index: seq<Item>, k: Bytes, v: Bytes, added: bool)
    requires Increasing(index, InternalLess) && (added && index != [] ==> InternalLess(LastKey(index), k))
    ensures Increasing(if added then index + [Item(k, v)] else index, InternalLess)
  {
    InternalLessOrders();
  }

  /** The items waiting become a block behind the file's end. */
  lemma WritesBlock(file: Bytes, crc: Crc, blocks: seq<DataBlock>, current: seq<Item>, index: seq<Item>, lastKey: Bytes,
                    h: Handle, contents: Bytes, layout: Layout)
    requires Building(file, crc, blocks, current, index, lastKey, false, h) && current != []
    requires IsBlock(contents, current, layout)
    requires |file| + |contents| + BLOCK_TRAILER < 0x1_0000_0000_0000_0000
    ensures var d := DataBlock(current, layout, Handle(|file|, |contents|));
      Building(file + StoredBlock(crc, contents), crc, blocks + [d], [], index, lastKey, true, d.handle)
  {
    hide IsBlock, KeyOf, ReadBlock, StoredBlock;
    var d := DataBlock(current, layout, Handle(|file|, |contents|));
    SameGroups(blocks, current, d);
    StoresBlock(file, crc, d, contents);
    StoredBlockSize(crc, contents);
    forall i | 0 <= i < |blocks| ensures Stored(file + StoredBlock(crc, contents), crc, blocks[i]) {
      StillStored(file, StoredBlock(crc, contents), crc, blocks[i]);
    }
    assert forall i :: 0 <= i < |index| ==> (blocks + [d])[i] == blocks[i];
  }

  lemma StoresBlock(file: Bytes, crc: Crc, d: DataBlock, contents: Bytes)
    requires |file| + |contents| + BLOCK_TRAILER < 0x1_0000_0000_0000_0000 && d.handle == Handle(|file|, |contents|)
    requires d.items != [] && AllKeysLong(d.items) && Increasing(d.items, InternalLess) && IsBlock(contents, d.items, d.layout)
    ensures Stored(file + StoredBlock(crc, contents), crc, d)
  {
    hide IsBlock, KeyOf, ReadBlock, StoredCrc;
    var whole := file + StoredBlock(crc, contents);
    assert whole[|file|..|file| + |contents|] == contents;
    assert whole + [] == whole;
    forall v ensures ReadBlock(whole, crc, v, d.handle) == Some(contents) {
      ReadsBack(file, crc, v, contents, []);
    }
  }

  lemma StillStored(file: Bytes, more: Bytes, crc: Crc, d: DataBlock)
    requires Stored(file, crc, d)
    ensures Stored(file + more, crc, d)
  {
    hide IsBlock, KeyOf, ReadBlock;
    var contents := file[d.handle.offset..d.handle.offset+d.handle.size];
    ReadsBackLonger(file, more, crc, d.handle, contents);
    assert (file + more)[d.handle.offset..d.handle.offset+d.handle.size] == contents;
  }

  lemma AllStillStored(file: Bytes, more: Bytes, crc: Crc, blocks: seq<DataBlock>)
    requires AllStored(file, crc, blocks)
    ensures AllStored(file + more, crc, blocks)
  {
    hide Stored;
    forall i | 0 <= i < |blocks| ensures Stored(file + more, crc, blocks[i]) {
      StillStored(file, more, crc, blocks[i]);
    }
  }

  /** The last index entry needs no next key. */
  lemma FinishesIndex(file: Bytes, crc: Crc, blocks: seq<DataBlock>, index: seq<Item>, lastKey: Bytes, h: Handle, k: Bytes)
    requires Building(file, crc, blocks, [], index, lastKey, true, h)
    requires |k| >= TRAILER && (k == lastKey || KeyOf(lastKey).user < KeyOf(k).user)
    ensures TableOk(file, crc, blocks, index + [Item(k, EncodeHandle(h))])
    ensures index != [] ==> InternalLess(LastKey(index), k)
  {
    hide Stored, KeyOf, IsBlock;
    var gs, more := Groups(blocks, []), index + [Item(k, EncodeHandle(h))];
    forall i | 0 <= i < |more|
      ensures more[i].value == EncodeHandle(blocks[i].handle) && IndexKey(gs, i, more[i].key)
    {
      if i < |index| {
        assert IndexKey(gs, i, index[i].key);
      }
    }
    if index != [] {
      forall j | 0 <= j < |gs| ensures Increasing(gs[j], InternalLess) {
        StoredIncreases(file, crc, blocks, [], j);
      }
      IndexAscends(gs, |index| - 1, LastKey(index), k);
    }
    IncreasingIndex(index, k, EncodeHandle(h), true);
  }

  lemma OneMoreItem(blocks: seq<DataBlock>, current: seq<Item>, item: Item)
    ensures AllItems(Groups(blocks, current + [item])) == AllItems(Groups(blocks, current)) + [item]
  {
    var gs, more := Groups(blocks, current), Groups(blocks, current + [item]);
    assert more[..|more|-1] == Groups(blocks, []);
    if current == [] {
      assert gs == Groups(blocks, []);
    } else {
      assert gs[..|gs|-1] == Groups(blocks, []);
    }
  }

  lemma LastKeyLong(file: Bytes, crc: Crc, blocks: seq<DataBlock>, current: seq<Item>, index: seq<Item>, lastKey: Bytes,
                    h: Handle)
    requires Building(file, crc, blocks, current, index, lastKey, true, h)
    ensures |lastKey| >= TRAILER
  {
    hide IsBlock, KeyOf;
    assert Stored(file, crc, blocks[|blocks|-1]);
  }

  lemma LastKeyIs(file: Bytes, crc: Crc, blocks: seq<DataBlock>, current: seq<Item>, index: seq<Item>, lastKey: Bytes,
                  pending: bool, h: Handle)
    requires Building(file, crc, blocks, current, index, lastKey, pending, h)
    ensures current != [] ==> lastKey == KeyBefore(current, |current|) && !pending
  {
  }

  lemma OneMoreFiltered(added: set<(nat, Bytes)>, blocks: seq<DataBlock>, current: seq<Item>, offset: nat, item: Item)
    requires Filtered(added, blocks, current, offset)
    ensures Filtered(added + {(offset, item.key)}, blocks, current + [item], offset)
  {
  }

  lemma StillFiltered(added: set<(nat, Bytes)>, blocks: seq<DataBlock>, current: seq<Item>, offset: nat, next: nat,
                      d: DataBlock)
    requires Filtered(added, blocks, current, offset) && d.items == current && d.handle.offset == offset
    ensures Filtered(added, blocks + [d], [], next)
  {
  }

  lemma HandleSize(h: Handle)
    ensures |EncodeHandle(h)| <= 20
  {
    VarintWidths();
    VarintAtMost(h.offset, VARINT64_BYTES);
    VarintAtMost(h.size, VARINT64_BYTES);
  }

  lemma StoredBlockSize(crc: Crc, contents: Bytes)
    ensures |StoredBlock(crc, contents)| == |contents| + BLOCK_TRAILER
  {
  }

  class TableBuilder {
    const blockSize: nat
    const crc: Crc
    const dataBlock: BlockBuilder
    const indexBlock: BlockBuilder
    const filterBlock: FilterBlockBuilder?
    var file: Bytes
    var lastKey: Bytes
    var numEntries: nat
    var pendingIndexEntry: bool
    var pendingHandle: Handle
    var closed: bool
    ghost var blocks: seq<DataBlock>

    ghost predicate Valid()
      reads this, dataBlock, indexBlock, filterBlock
    {
      && dataBlock != indexBlock && dataBlock.Valid() && indexBlock.Valid() && !dataBlock.finished && !indexBlock.finished
      && dataBlock.less == InternalLess && indexBlock.less == InternalLess
      && Building(file, crc, blocks, dataBlock.items, indexBlock.items, lastKey, pendingIndexEntry, pendingHandle)
      && (numEntries == 0 <==> blocks == [] && dataBlock.items == [])
      && |lastKey| < 0x1_0000_0000
      && dataBlock.CurrentSizeEstimate() < 0x1_0000_0000
      && (filterBlock != null ==>
            && filterBlock.Valid() && filterBlock.at == |file|
            && Filtered(filterBlock.added, blocks, dataBlock.items, |file|))
    }

    /** Everything added, in order. */
    ghost function Added(): seq<seq<Item>>
      requires Valid()
      reads this, dataBlock, indexBlock, filterBlock
    {
      Groups(blocks, dataBlock.items)
    }

    constructor (blockSize: nat, restartInterval: nat, crc: Crc, policy: BloomFilterPolicy?)
      requires restartInterval >= 1 && (policy != null ==> 1 <= policy.k <= 30)
      ensures Valid() && !closed && Added() == [] && fresh(dataBlock) && fresh(indexBlock)
      ensures (filterBlock != null <==> policy != null) && (filterBlock != null ==> fresh(filterBlock) && filterBlock.policy == policy)
    {
      this.blockSize, this.crc := blockSize, crc;
      dataBlock := new BlockBuilder(InternalLess, restartInterval);
      indexBlock := new BlockBuilder(InternalLess, 1);
      if policy == null {
        filterBlock := null;
      } else {
        var f := new FilterBlockBuilder(policy);
        f.StartBlock(0);
        filterBlock := f;
      }
      file, lastKey, numEntries, pendingIndexEntry, pendingHandle, closed := [], [], 0, false, Handle(0, 0), false;
      blocks := [];
      new;
      EmptyTable(crc, pendingHandle);
    }

    /** Keys arrive in order; blocks stay below 4 GB and the file below 2^64. */
    method Add(key: Bytes, value: Bytes)
      requires Valid() && !closed && |key| >= TRAILER && (numEntries > 0 ==> InternalLess(lastKey, key))
      requires Item(key, value).Fits() && dataBlock.CurrentSizeEstimate() + 19 + |key| + |value| < 0x1_0000_0000
      requires |file| < 0x1_0000_0000_0000_0000 - 0x1_0000_0000 - BLOCK_TRAILER
      modifies this, dataBlock, indexBlock, filterBlock
      ensures Valid() && !closed && numEntries == old(numEntries) + 1 && lastKey == key
      ensures AllItems(Added()) == old(AllItems(Added())) + [Item(key, value)]
      ensures dataBlock.items != [] ==> blocks == old(blocks) && dataBlock.CurrentSizeEstimate() < blockSize
      ensures dataBlock.items == [] ==> && |blocks| == old(|blocks|) + 1 && blocks[..old(|blocks|)] == old(blocks)
                                        && blocks[old(|blocks|)].handle.size >= blockSize
    {
      hide Building, Filtered, AllItems, Groups, IsComparator, Built, FiltersOk, StartsOk, SharesAll;
      AddEntry(key, value);
      var estimatedBlockSize := dataBlock.CurrentSizeEstimate();
      if estimatedBlockSize >= blockSize {
        Flush();
      }
    }

    /** The entry, after the index entry of the block before it if that one is still to come. */
    method AddEntry(key: Bytes, value: Bytes)
      requires Valid() && !closed && |key| >= TRAILER && (numEntries > 0 ==> InternalLess(lastKey, key))
      requires Item(key, value).Fits() && dataBlock.CurrentSizeEstimate() + 19 + |key| + |value| < 0x1_0000_0000
      modifies this, dataBlock, indexBlock, filterBlock
      ensures Valid() && !closed && numEntries == old(numEntries) + 1 && lastKey == key && file == old(file)
      ensures AllItems(Added()) == old(AllItems(Added())) + [Item(key, value)] && blocks == old(blocks) && dataBlock.items != []
    {
      hide Building, Filtered, AllItems, Groups, KeyOf, IsComparator, Built, Increasing, FiltersOk, StartsOk, Flatten, Separates;
      hide EncodeHandle, IsBlock, SharesAll;
      ghost var item, current, index := Item(key, value), dataBlock.items, indexBlock.items;
      InternalLessOrders();
      var separator := [];
      if pendingIndexEntry {
        LastKeyLong(file, crc, blocks, current, index, lastKey, pendingHandle);
        separator := DbFormat.FindShortestSeparator(lastKey, key);
      }
      AddsKey(file, crc, blocks, current, index, lastKey, pendingIndexEntry, pendingHandle, item, separator);
      OneMoreItem(blocks, current, item);
      dataBlock.LastKeyAdded();
      LastKeyIs(file, crc, blocks, current, index, lastKey, pendingIndexEntry, pendingHandle);
      if pendingIndexEntry {
        AddIndexEntry(separator);
      }
      if filterBlock != null {
        OneMoreFiltered(filterBlock.added, blocks, current, |file|, item);
        filterBlock.AddKey(key);
      }
      lastKey := key;
      numEntries := numEntries + 1;
      dataBlock.Add(key, value);
    }

    /** The index entry of the last data block, under a key that separates it from what comes next. */
    method AddIndexEntry(separator: Bytes)
      requires indexBlock.Valid() && !indexBlock.finished && indexBlock.less == InternalLess && |separator| < 0x1_0000_0000
      requires indexBlock.items != [] ==> InternalLess(LastKey(indexBlock.items), separator)
      modifies `lastKey, `pendingIndexEntry, indexBlock
      ensures indexBlock.Valid() && !indexBlock.finished && !pendingIndexEntry && lastKey == separator
      ensures indexBlock.items == old(indexBlock.items) + [Item(separator, EncodeHandle(pendingHandle))]
    {
      hide IsComparator, Built, Increasing, EncodeHandle, KeyOf;
      InternalLessOrders();
      indexBlock.LastKeyAdded();
      lastKey := separator;
      var handleEncoding := EncodeHandle(pendingHandle);
      HandleSize(pendingHandle);
      indexBlock.Add(lastKey, handleEncoding);
      pendingIndexEntry := false;
    }

    /** Ends the data block. */
    method Flush()
      requires Valid() && !closed
      requires |file| < 0x1_0000_0000_0000_0000 - 0x1_0000_0000 - BLOCK_TRAILER
      modifies this, dataBlock, filterBlock
      ensures Valid() && !closed && Added() == old(Added()) && dataBlock.items == []
      ensures numEntries == old(numEntries) && lastKey == old(lastKey)
      ensures if old(dataBlock.items) == [] then blocks == old(blocks)
              else && |blocks| == old(|blocks|) + 1 && blocks[..old(|blocks|)] == old(blocks)
                   && blocks[old(|blocks|)].handle.size == old(dataBlock.CurrentSizeEstimate())
    {
      hide Building, Filtered, KeyOf, IsBlock, Groups, AllItems, Built, Increasing, FiltersOk, StartsOk, Flatten, StoredBlock;
      hide SharesAll;
      dataBlock.LastKeyAdded();
      if dataBlock.buffer == [] {
        return;
      }
      ghost var current, layout, index := dataBlock.items, dataBlock.layout, indexBlock.items;
      LastKeyIs(file, crc, blocks, current, index, lastKey, pendingIndexEntry, pendingHandle);
      var raw := dataBlock.Finish();
      WritesBlock(file, crc, blocks, current, index, lastKey, pendingHandle, raw, layout);
      ghost var d := DataBlock(current, layout, Handle(|file|, |raw|));
      SameGroups(blocks, current, d);
      if filterBlock != null {
        StillFiltered(filterBlock.added, blocks, current, |file|, |file| + |raw| + BLOCK_TRAILER, d);
      }
      pendingHandle := Handle(|file|, |raw|);
      StoredBlockSize(crc, raw);
      file := file + StoredBlock(crc, raw);
      dataBlock.Reset();
      blocks := blocks + [d];
      pendingIndexEntry := true;
      if filterBlock != null {
        filterBlock.StartBlock(|file|);
      }
    }

    /** Ends the last block and writes the filter and the index.  The offsets are right as long as they fit. */
    method Finish() returns (indexHandle: Handle, filter: Bytes)
      requires Valid() && !closed
      requires |file| < 0x1_0000_0000_0000_0000 - 0x1_0000_0000 - BLOCK_TRAILER
      requires indexBlock.CurrentSizeEstimate() + 39 + |lastKey| < 0x1_0000_0000
      modifies this, dataBlock, indexBlock, filterBlock
      ensures closed && TableOk(file, crc, blocks, indexBlock.items)
      ensures AllItems(Groups(blocks, [])) == old(AllItems(Added()))
      ensures |file| < 0x1_0000_0000_0000_0000 ==> WrittenIndex(file, crc, indexHandle, indexBlock.items, indexBlock.layout)
      ensures filterBlock != null && |filter| < 0x1_0000_0000 ==> NoneDenied(filter, blocks, filterBlock.policy.hash)
    {
      hide Building, Filtered, KeyOf, IsBlock, Groups, AllItems, Built, FiltersOk, StartsOk, Flatten, StoredBlock;
      hide TableOk, IsComparator, EncodeHandle, BlockMayMatch, Separates, WrittenIndex, NoneDenied, Increasing;
      Flush();
      closed := true;
      filter := [];
      if filterBlock != null {
        ghost var added := filterBlock.added;
        filter := filterBlock.Finish();
        if |filter| < 0x1_0000_0000 {
          FilterHolds(filter, added, blocks, |file|, filterBlock.policy.hash);
        }
      }
      FinishIndex();
      if filterBlock != null {
        StillOk(file, StoredBlock(crc, filter), crc, blocks, indexBlock.items);
        file := file + StoredBlock(crc, filter);
      }
      var raw := indexBlock.Finish();
      indexHandle := Handle(|file| % 0x1_0000_0000_0000_0000, |raw|);
      StillOk(file, StoredBlock(crc, raw), crc, blocks, indexBlock.items);
      StoredBlockSize(crc, raw);
      if |file| < 0x1_0000_0000_0000_0000 {
        WritesIndex(file, crc, raw, indexBlock.items, indexBlock.layout);
      }
      file := file + StoredBlock(crc, raw);
    }

    /** The entry of the last block, if there is one. */
    method FinishIndex()
      requires dataBlock != indexBlock && indexBlock.Valid() && !indexBlock.finished && indexBlock.less == InternalLess
      requires Building(file, crc, blocks, [], indexBlock.items, lastKey, pendingIndexEntry, pendingHandle)
      requires indexBlock.CurrentSizeEstimate() + 39 + |lastKey| < 0x1_0000_0000
      modifies `lastKey, `pendingIndexEntry, indexBlock
      ensures indexBlock.Valid() && !indexBlock.finished && indexBlock.CurrentSizeEstimate() < 0x1_0000_0000
      ensures TableOk(file, crc, blocks, indexBlock.items)
    {
      hide KeyOf, IsBlock, Built, TableOk, IsComparator, EncodeHandle, Increasing, Building;
      InternalLessOrders();
      indexBlock.LastKeyAdded();
      if pendingIndexEntry {
        LastKeyLong(file, crc, blocks, [], indexBlock.items, lastKey, pendingHandle);
        var successor := DbFormat.FindShortSuccessor(lastKey);
        FinishesIndex(file, crc, blocks, indexBlock.items, lastKey, pendingHandle, successor);
        HandleSize(pendingHandle);
        lastKey := successor;
        indexBlock.Add(lastKey, EncodeHandle(pendingHandle));
        pendingIndexEntry := false;
      } else {
        NoBlocks(file, crc, blocks, indexBlock.items, lastKey, pendingHandle);
      }
    }
  }

  /** The index can be read back through its handle. */
  ghost predicate WrittenIndex(file: Bytes, crc: Crc, h: Handle, index: seq<Item>, layout: Layout) {
    && h.offset + h.size <= |file|
    && (forall v :: ReadBlock(file, crc, v, h) == Some(file[h.offset..h.offset+h.size]))
    && IsBlock(file[h.offset..h.offset+h.size], index, layout)
  }

  /** The filter denies no key in the block that holds it. */
  ghost predicate NoneDenied(filter: Bytes, blocks: seq<DataBlock>, hash: HashFunction) {
    forall i, j :: 0 <= i < |blocks| && 0 <= j < |blocks[i].items| ==>
      BlockMayMatch(filter, blocks[i].handle.offset, hash(blocks[i].items[j].key))
  }

  lemma FilterHolds(filter: Bytes, added: set<(nat, Bytes)>, blocks: seq<DataBlock>, offset: nat, hash: HashFunction)
    requires Filtered(added, blocks, [], offset)
    requires forall a :: a in added ==> BlockMayMatch(filter, a.0, hash(a.1))
    ensures NoneDenied(filter, blocks, hash)
  {
    hide BlockMayMatch;
    forall i, j | 0 <= i < |blocks| && 0 <= j < |blocks[i].items|
      ensures BlockMayMatch(filter, blocks[i].handle.offset, hash(blocks[i].items[j].key))
    {
      var a: (nat, Bytes) := (blocks[i].handle.offset, blocks[i].items[j].key);
      assert a in added;
    }
  }

  lemma StillOk(file: Bytes, more: Bytes, crc: Crc, blocks: seq<DataBlock>, index: seq<Item>)
    requires TableOk(file, crc, blocks, index)
    ensures TableOk(file + more, crc, blocks, index)
  {
    hide AllStored, Chained, IndexOk, Increasing;
    AllStillStored(file, more, crc, blocks);
  }

  lemma NoBlocks(file: Bytes, crc: Crc, blocks: seq<DataBlock>, index: seq<Item>, lastKey: Bytes, h: Handle)
    requires Building(file, crc, blocks, [], index, lastKey, false, h)
    ensures TableOk(file, crc, blocks, index)
  {
  }

  lemma WritesIndex(file: Bytes, crc: Crc, raw: Bytes, index: seq<Item>, layout: Layout)
    requires IsBlock(raw, index, layout) && |file| < 0x1_0000_0000_0000_0000 && |raw| < 0x1_0000_0000_0000_0000
    ensures WrittenIndex(file + StoredBlock(crc, raw), crc, Handle(|file|, |raw|), index, layout)
  {
    hide IsBlock, ReadBlock, StoredCrc;
    var whole, h := file + StoredBlock(crc, raw), Handle(|file|, |raw|);
    assert whole[|file|..|file| + |raw|] == raw;
    assert whole + [] == whole;
    forall v ensures ReadBlock(whole, crc, v, h) == Some(raw) {
      ReadsBack(file, crc, v, raw, []);
    }
  }
}
