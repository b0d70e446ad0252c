/** Looking a key up in a table file (table/table.cc). */
module Tables {
  import opened Keys
  import opened Coding
  import opened Bloom
  import opened BlockFormat
  import opened BlockBuilders
  import opened BlockIters
  import opened Comparator
  import opened Cursors
  import opened DbFormat
  import opened FilterBlocks
  import opened TableFormat
  import opened TableBuilders
  import opened TwoLevel
  import opened Versions

  /** The entries of the block that an index value leads to. */
  ghost function BlockOf(blocks: seq<DataBlock>, value: Bytes): seq<Entry> {
    if exists i :: 0 <= i < |blocks| && EncodeHandle(blocks[i].handle) == value
    then var i :| 0 <= i < |blocks| && EncodeHandle(blocks[i].handle) == value; EntriesOf(blocks[i].items)
    else []
  }

  // ----- What separated blocks mean for a search -----

  /** Index keys bound the blocks, and no index key has the user key of an entry behind it unless it is the last key
      of its own block. */
  ghost predicate Separated(index: seq<Entry>, blockOf: Bytes -> seq<Entry>) {
    && Bounds(index, blockOf)
    && (forall i :: 0 <= i < |index| ==> blockOf(index[i].value) != [])
    && forall i, e :: 0 <= i < |index| - 1 && e in blockOf(index[i+1].value) ==>
         || (blockOf(index[i].value) != [] && LastOf(blockOf(index[i].value)).key == index[i].key)
         || index[i].key.user < e.key.user
  }

  function LastOf(es: seq<Entry>): Entry
    requires es != []
  {
    es[|es|-1]
  }

  lemma {:induction false} FlatMembers(index: seq<Entry>, blockOf: Bytes -> seq<Entry>, n: nat)
    requires n <= |index|
    ensures forall e :: e in Flat(index, blockOf, n) <==> exists i :: 0 <= i < n && e in blockOf(index[i].value)
  {
    if n > 0 {
      FlatMembers(index, blockOf, n - 1);
    }
  }

  /** The first entry at or after a key is known by its neighbours. */
  lemma {:induction false} FirstFromIs(es: seq<Entry>, key: InternalKey, e: Entry)
    requires Sorted(es) && e in es && AtMost(key, e.key)
    requires forall o :: o in es && AtMost(key, o.key) ==> AtMost(e.key, o.key)
    ensures FirstFrom(es, key) == Some(e)
  {
    var i :| 0 <= i < |es| && es[i] == e;
    if Less(es[0].key, key) {
      assert i > 0 && es[1..][i-1] == e;
      FirstFromIs(es[1..], key, e);
    } else {
      assert es[0] in es;
      assert forall j :: 0 < j < |es| ==> Less(es[0].key, es[j].key);
    }
  }

  lemma NothingFrom(es: seq<Entry>, key: InternalKey)
    requires forall e :: e in es ==> Less(e.key, key)
    ensures FirstFrom(es, key) == None
  {
  }

  /** Blocks after the one sought hold only later keys, blocks before it only earlier ones. */
  lemma OtherBlocks(index: seq<Entry>, blockOf: Bytes -> seq<Entry>, key: InternalKey, b: nat, i: nat, e: Entry)
    requires Bounds(index, blockOf) && IsSeek(index, key, b) && i < |index| && e in blockOf(index[i].value)
    ensures i < b ==> Less(e.key, key)
    ensures b < i ==> Less(index[b].key, e.key) && Less(key, e.key)
  {
    if b < i {
      assert e in blockOf(index[i-1+1].value) && Less(index[i-1].key, e.key);
      assert b < i - 1 ==> Less(index[b].key, index[i-1].key);
    }
  }

  /** The block the index leads to has the first entry at or after the key, if one there has its user key: otherwise
      the first such entry of the table, wherever it is, has another user key. */
  lemma BlockAnswers(index: seq<Entry>, blockOf: Bytes -> seq<Entry>, key: InternalKey, b: nat, p: nat)
    requires Separated(index, blockOf) && IsSeek(index, key, b) && b < |index|
    requires IsSeek(blockOf(index[b].value), key, p) && p <= |blockOf(index[b].value)|
    ensures var all, block := Flat(index, blockOf, |index|), blockOf(index[b].value);
      && Sorted(all)
      && (p < |block| ==> FirstFrom(all, key) == Some(block[p]))
      && (p == |block| ==> FirstFrom(all, key) == None || FirstFrom(all, key).value.key.user != key.user)
  {
    hide Separated, Bounds, FirstFrom, IsSeek;
    var all, block := Flat(index, blockOf, |index|), blockOf(index[b].value);
    assert Bounds(index, blockOf) by { SeparatedBounds(index, blockOf); }
    FlatSorted(index, blockOf, |index|);
    FlatMembers(index, blockOf, |index|);
    if p < |block| {
      assert block[p] in block;
      forall o | o in all && AtMost(key, o.key) ensures AtMost(block[p].key, o.key) {
        var i :| 0 <= i < |index| && o in blockOf(index[i].value);
        FirstInBlock(index, blockOf, key, b, p, i, o);
      }
      SoughtInBlock(block, key, p);
      FirstFromIs(all, key, block[p]);
    } else {
      var r := FirstFrom(all, key);
      if r.Some? {
        var i :| 0 <= i < |index| && r.value in blockOf(index[i].value);
        SoughtPastBlock(index, key, block, b, p);
        NextBlockOnly(index, blockOf, key, b, i, r.value);
      }
    }
  }

  lemma SeparatedBounds(index: seq<Entry>, blockOf: Bytes -> seq<Entry>)
    requires Separated(index, blockOf)
    ensures Bounds(index, blockOf)
  {
  }

  lemma SoughtInBlock(block: seq<Entry>, key: InternalKey, p: nat)
    requires IsSeek(block, key, p) && p < |block|
    ensures AtMost(key, block[p].key)
  {
  }

  lemma SoughtPastBlock(index: seq<Entry>, key: InternalKey, block: seq<Entry>, b: nat, p: nat)
    requires IsSeek(index, key, b) && b < |index| && IsSeek(block, key, p) && p == |block|
    ensures AtMost(key, index[b].key) && forall o :: o in block ==> Less(o.key, key)
  {
  }

  lemma FirstInBlock(index: seq<Entry>, blockOf: Bytes -> seq<Entry>, key: InternalKey, b: nat, p: nat, i: nat, o: Entry)
    requires Bounds(index, blockOf) && IsSeek(index, key, b) && b < |index| && i < |index|
    requires IsSeek(blockOf(index[b].value), key, p) && p < |blockOf(index[b].value)|
    requires o in blockOf(index[i].value) && AtMost(key, o.key)
    ensures AtMost(blockOf(index[b].value)[p].key, o.key)
  {
    var block := blockOf(index[b].value);
    OtherBlocks(index, blockOf, key, b, i, o);
    if i == b {
      var q :| 0 <= q < |block| && block[q] == o;
      assert p < q ==> Less(block[p].key, block[q].key);
    } else {
      assert block[p] in block;
      assert AtMost(block[p].key, index[b].key);
    }
  }

  /** An entry behind a block whose entries all come before the key has another user key. */
  lemma NextBlockOnly(index: seq<Entry>, blockOf: Bytes -> seq<Entry>, key: InternalKey, b: nat, i: nat, e: Entry)
    requires Separated(index, blockOf) && IsSeek(index, key, b)
    requires b < |index| && i < |index| && e in blockOf(index[i].value)
    requires AtMost(key, index[b].key) && AtMost(key, e.key)
    requires forall o :: o in blockOf(index[b].value) ==> Less(o.key, key)
    ensures b < i && e.key.user != key.user
  {
    OtherBlocks(index, blockOf, key, b, i, e);
    var block := blockOf(index[b].value);
    assert LastOf(block) in block;
    if b + 1 < i {
      var next := blockOf(index[b+1].value);
      assert next[0] in next;
      SeekOwnKey(index, b + 1);
      OtherBlocks(index, blockOf, index[b+1].key, b + 1, i, e);
      assert AtMost(next[0].key, index[b+1].key);
    }
  }

  lemma SeekOwnKey(index: seq<Entry>, b: nat)
    requires Sorted(index) && b < |index|
    ensures IsSeek(index, index[b].key, b)
  {
    forall i | b <= i < |index| ensures AtMost(index[b].key, index[i].key) {
    }
  }

  // ----- The index of a table separates its blocks -----

  lemma BlockOfIndex(blocks: seq<DataBlock>, end: nat, i: nat)
    requires OffsetsAscend(blocks, end) && i < |blocks|
    ensures BlockOf(blocks, EncodeHandle(blocks[i].handle)) == EntriesOf(blocks[i].items)
  {
    hide EncodeHandle;
    var value := EncodeHandle(blocks[i].handle);
    forall j | 0 <= j < |blocks| && EncodeHandle(blocks[j].handle) == value ensures j == i {
      HandleRoundTrip(blocks[i].handle);
      HandleRoundTrip(blocks[j].handle);
    }
  }

  /** The index leads to each block. */
  lemma IndexLeads(file: Bytes, crc: Crc, blocks: seq<DataBlock>, index: seq<Item>, i: nat)
    requires TableOk(file, crc, blocks, index) && i < |index|
    ensures Groups(blocks, [])[i] == blocks[i].items != [] && IndexKey(Groups(blocks, []), i, index[i].key)
    ensures BlockOf(blocks, EntriesOf(index)[i].value) == EntriesOf(blocks[i].items)
    ensures Sorted(EntriesOf(blocks[i].items))
  {
    hide KeyOf, IsBlock, ReadBlock, EncodeHandle, BlockOf;
    BlockOfIndex(blocks, |file|, i);
    assert Stored(file, crc, blocks[i]);
    EntriesSorted(blocks[i].items);
  }

  lemma TableSeparates(file: Bytes, crc: Crc, blocks: seq<DataBlock>, index: seq<Item>)
    requires TableOk(file, crc, blocks, index)
    ensures Separated(EntriesOf(index), v => BlockOf(blocks, v))
  {
    hide KeyOf, BlockOf, Groups, Chained, IndexKey, Less, AllStored, OffsetsAscend, Increasing;
    var es, blockOf, gs := EntriesOf(index), v => BlockOf(blocks, v), Groups(blocks, []);
    EntriesSorted(index);
    forall i | 0 <= i < |es| ensures blockOf(es[i].value) == EntriesOf(gs[i]) != [] && Sorted(EntriesOf(gs[i])) {
      IndexLeads(file, crc, blocks, index, i);
    }
    forall i, e | 0 <= i < |es| && e in blockOf(es[i].value) ensures AtMost(e.key, es[i].key) {
      IndexLeads(file, crc, blocks, index, i);
      EntryAtMostIndex(gs, i, index[i].key, e);
    }
    forall i, e | 0 <= i < |es| - 1 && e in blockOf(es[i+1].value)
      ensures Less(es[i].key, e.key)
      ensures LastOf(blockOf(es[i].value)).key == es[i].key || es[i].key.user < e.key.user
    {
      IndexLeads(file, crc, blocks, index, i);
      IndexLeads(file, crc, blocks, index, i + 1);
      IndexBelowEntry(gs, i, index[i].key, e);
    }
  }

  lemma EntryAtMostIndex(gs: seq<seq<Item>>, i: nat, k: Bytes, e: Entry)
    requires NonEmpty(gs) && i < |gs| && IndexKey(gs, i, k) && Sorted(EntriesOf(gs[i])) && e in EntriesOf(gs[i])
    ensures AtMost(e.key, KeyOf(k))
  {
    hide KeyOf;
    EntryAtMostLast(EntriesOf(gs[i]), e);
    LastAtMostIndex(gs, i, k);
  }

  lemma IndexBelowEntry(gs: seq<seq<Item>>, i: nat, k: Bytes, e: Entry)
    requires Chained(gs) && i + 1 < |gs| && IndexKey(gs, i, k)
    requires Sorted(EntriesOf(gs[i+1])) && e in EntriesOf(gs[i+1])
    ensures Less(KeyOf(k), e.key) && (LastOf(EntriesOf(gs[i])).key == KeyOf(k) || KeyOf(k).user < e.key.user)
  {
    hide KeyOf;
    FirstAtMostEntry(EntriesOf(gs[i+1]), e);
    IndexBelowNext(gs, i, k);
  }

  lemma EntryAtMostLast(es: seq<Entry>, e: Entry)
    requires Sorted(es) && e in es
    ensures AtMost(e.key, LastOf(es).key)
  {
  }

  lemma FirstAtMostEntry(es: seq<Entry>, e: Entry)
    requires Sorted(es) && e in es
    ensures AtMost(es[0].key, e.key)
  {
  }

  lemma LastAtMostIndex(gs: seq<seq<Item>>, i: nat, k: Bytes)
    requires NonEmpty(gs) && i < |gs| && IndexKey(gs, i, k)
    ensures AtMost(KeyOf(LastKey(gs[i])), KeyOf(k))
  {
    hide KeyOf;
  }

  lemma IndexBelowNext(gs: seq<seq<Item>>, i: nat, k: Bytes)
    requires Chained(gs) && i + 1 < |gs| && IndexKey(gs, i, k)
    ensures Less(KeyOf(k), KeyOf(gs[i+1][0].key))
    ensures KeyOf(k) == KeyOf(LastKey(gs[i])) || KeyOf(k).user < KeyOf(gs[i+1][0].key).user
  {
    hide KeyOf;
    assert InternalLess(LastKey(gs[i+1-1]), gs[i+1][0].key);
  }

  /** The entries of the table are those added to it. */
  lemma {:induction false} EntriesAdded(file: Bytes, crc: Crc, blocks: seq<DataBlock>, index: seq<Item>, n: nat)
    requires TableOk(file, crc, blocks, index) && n <= |index|
    ensures Flat(EntriesOf(index), v => BlockOf(blocks, v), n) == EntriesOf(AllItems(Groups(blocks, [])[..n]))
  {
    hide KeyOf, BlockOf, TableOk;
    TableCount(file, crc, blocks, index);
    var gs := Groups(blocks, []);
    if n > 0 {
      EntriesAdded(file, crc, blocks, index, n - 1);
      IndexLeads(file, crc, blocks, index, n - 1);
      assert gs[..n][..n-1] == gs[..n-1];
      EntriesAppend(AllItems(gs[..n-1]), gs[n-1]);
    }
  }

  lemma EntriesAppend(a: seq<Item>, b: seq<Item>)
    ensures EntriesOf(a + b) == EntriesOf(a) + EntriesOf(b)
  {
  }

  // ----- Looking up -----

  /** An open table: the index block's bytes, and the filter block's if there is one. */
  class Table {
    const file: Bytes
    const crc: Crc
    const verifyChecksums: bool
    const indexData: Bytes
    const filter: FilterBlockReader?
    ghost const blocks: seq<DataBlock>
    ghost const index: seq<Item>
    ghost const layout: Layout

    ghost predicate Valid()
      reads filter
    {
      && TableOk(file, crc, blocks, index) && IsBlock(indexData, index, layout)
      && (filter != null ==>
            && filter.Valid() && NoneDenied(filter.contents, blocks, filter.policy.hash)
            && HashesUserKeys(filter.policy.hash))
    }

    constructor (file: Bytes, crc: Crc, verifyChecksums: bool, indexData: Bytes, filter: FilterBlockReader?,
                 ghost blocks: seq<DataBlock>, ghost index: seq<Item>, ghost layout: Layout)
      requires TableOk(file, crc, blocks, index) && IsBlock(indexData, index, layout)
      requires filter != null ==> filter.Valid() && NoneDenied(filter.contents, blocks, filter.policy.hash)
                                  && HashesUserKeys(filter.policy.hash)
      ensures Valid() && this.blocks == blocks
    {
      this.file, this.crc, this.verifyChecksums, this.indexData, this.filter := file, crc, verifyChecksums, indexData, filter;
      this.blocks, this.index, this.layout := blocks, index, layout;
    }

    /** Hands over an entry, or nothing: the first entry at or after `k`, whenever that has the user key of `k`. */
    method InternalGet(k: Bytes) returns (handed: Option<Item>)
      requires Valid() && |k| >= TRAILER
      ensures TableAnswer(EntriesOf(AllItems(Groups(blocks, []))), KeyOf(k), Handed(handed))
    {
      hide TableOk, IsBlock, KeyOf, NoneDenied, FirstFrom, HashesUserKeys, BlockMayMatch, FirstAtOrAfter, TableAnswer, EncodeHandle;
      handed := None;
      TableCount(file, crc, blocks, index);
      var iiter := OpenBlock(indexData, index, layout);
      iiter.Seek(k);
      ghost var b := iiter.pos;
      assert b <= |index| by { SeekBound(index, k, b); }
      if iiter.Valid() {
        IndexHandle(file, crc, blocks, index, b);
        var handleValue := iiter.Value();
        var handle := DecodeHandle(handleValue);
        var denied := false;
        if filter != null && handle.Some? {
          var mayMatch := filter.KeyMayMatch(handle.value.offset, k);
          denied := !mayMatch;
        }
        if denied {
          Denied(file, crc, blocks, index, filter.contents, filter.policy.hash, k, b);
        } else {
          handed := BlockGet(handleValue, k, b);
        }
      } else {
        PastIndex(file, crc, blocks, index, k);
      }
    }

    /** A block's iterator. */
    method OpenBlock(data: Bytes, ghost items: seq<Item>, ghost l: Layout) returns (iter: BlockIter)
      requires IsBlock(data, items, l) && Increasing(items, InternalLess)
      ensures fresh(iter) && iter.Ok() && iter.intact && iter.items == items && iter.less == InternalLess
    {
      hide IsBlock, IsComparator, Increasing;
      InternalLessOrders();
      RestartsOfBlock(data, items, l);
      var (at, n) := RestartsOf(data).value;
      iter := new BlockIter(InternalLess, data, at, n, true, items, l);
    }

    /** Reads the block a handle leads to, and seeks in it. */
    method BlockGet(handleValue: Bytes, k: Bytes, ghost b: nat) returns (handed: Option<Item>)
      requires Valid() && b < |index| && handleValue == index[b].value
      requires FirstAtOrAfter(index, InternalLess, k, b)
      ensures TableAnswer(EntriesOf(AllItems(Groups(blocks, []))), KeyOf(k), Handed(handed))
    {
      hide TableOk, IsBlock, KeyOf, NoneDenied, FirstFrom, HashesUserKeys, FirstAtOrAfter, TableAnswer, EncodeHandle, ReadBlock;
      IndexHandle(file, crc, blocks, index, b);
      ghost var d := blocks[b];
      handed := None;
      var handle := DecodeHandle(handleValue);
      var contents := ReadBlock(file, crc, verifyChecksums, handle.value);
      var iter := OpenBlock(contents.value, d.items, d.layout);
      iter.Seek(k);
      SeekBound(d.items, k, iter.pos);
      AnswerAt(file, crc, blocks, index, k, b, iter.pos);
      if iter.Valid() {
        handed := Some(Item(iter.Key(), iter.Value()));
      }
    }
  }

  function Handed(item: Option<Item>): Option<Entry> {
    match item
    case None => None
    case Some(i) => Some(Entry(KeyOf(i.key), i.value))
  }

  /** The filter hashes user keys only (db/dbformat.cc, InternalFilterPolicy). */
  ghost predicate HashesUserKeys(hash: HashFunction) {
    forall a, b :: |a| >= TRAILER && |b| >= TRAILER && ExtractUserKey(a) == ExtractUserKey(b) ==> hash(a) == hash(b)
  }

  lemma SeekBound(items: seq<Item>, k: Bytes, p: nat)
    requires FirstAtOrAfter(items, InternalLess, k, p)
    ensures p <= |items| && IsSeek(EntriesOf(items), KeyOf(k), p)
  {
    hide KeyOf;
    forall i | 0 <= i < |items| ensures InternalLess(items[i].key, k) == Less(EntriesOf(items)[i].key, KeyOf(k)) {
    }
  }

  lemma IndexHandle(file: Bytes, crc: Crc, blocks: seq<DataBlock>, index: seq<Item>, b: nat)
    requires TableOk(file, crc, blocks, index) && b < |index|
    ensures |index| == |blocks| && DecodeHandle(index[b].value) == Some(blocks[b].handle)
    ensures var d := blocks[b];
      && d.handle.offset + d.handle.size <= |file|
      && (forall v :: ReadBlock(file, crc, v, d.handle) == Some(file[d.handle.offset..d.handle.offset+d.handle.size]))
      && IsBlock(file[d.handle.offset..d.handle.offset+d.handle.size], d.items, d.layout)
      && Increasing(d.items, InternalLess) && d.items != [] && AllKeysLong(d.items)
  {
    hide IsBlock, KeyOf, ReadBlock, EncodeHandle, DecodeHandle, Chained;
    assert Stored(file, crc, blocks[b]);
    HandleRoundTrip(blocks[b].handle);
  }

  /** What seeking in the block the index leads to says about the whole table. */
  lemma AnswerAt(file: Bytes, crc: Crc, blocks: seq<DataBlock>, index: seq<Item>, k: Bytes, b: nat, p: nat)
    requires TableOk(file, crc, blocks, index) && |index| == |blocks| && b < |index|
    requires FirstAtOrAfter(index, InternalLess, k, b) && FirstAtOrAfter(blocks[b].items, InternalLess, k, p)
    ensures p <= |blocks[b].items|
    ensures var all := EntriesOf(AllItems(Groups(blocks, [])));
      && (p < |blocks[b].items| ==>
            && FirstFrom(all, KeyOf(k)) == Some(EntriesOf(blocks[b].items)[p])
            && TableAnswer(all, KeyOf(k), Handed(Some(blocks[b].items[p]))))
      && (p == |blocks[b].items| ==> TableAnswer(all, KeyOf(k), None))
  {
    hide TableOk, KeyOf, BlockOf, FirstFrom, FirstAtOrAfter, Separated, IsSeek;
    var es, blockOf := EntriesOf(index), v => BlockOf(blocks, v);
    TableSeparates(file, crc, blocks, index);
    EntriesAdded(file, crc, blocks, index, |index|);
    assert Groups(blocks, [])[..|index|] == Groups(blocks, []);
    SeekBound(index, k, b);
    SeekBound(blocks[b].items, k, p);
    IndexLeads(file, crc, blocks, index, b);
    BlockAnswers(es, blockOf, KeyOf(k), b, p);
  }

  lemma PastIndex(file: Bytes, crc: Crc, blocks: seq<DataBlock>, index: seq<Item>, k: Bytes)
    requires TableOk(file, crc, blocks, index) && FirstAtOrAfter(index, InternalLess, k, |index|)
    ensures TableAnswer(EntriesOf(AllItems(Groups(blocks, []))), KeyOf(k), None)
  {
    hide TableOk, KeyOf, BlockOf, FirstFrom, FirstAtOrAfter, Separated;
    var es, blockOf := EntriesOf(index), v => BlockOf(blocks, v);
    TableSeparates(file, crc, blocks, index);
    SeparatedBounds(es, blockOf);
    EntriesAdded(file, crc, blocks, index, |index|);
    TableCount(file, crc, blocks, index);
    assert Groups(blocks, [])[..|index|] == Groups(blocks, []);
    SeekBound(index, k, |index|);
    FlatMembers(es, blockOf, |index|);
    var all := Flat(es, blockOf, |index|);
    forall e | e in all ensures Less(e.key, KeyOf(k)) {
      var i :| 0 <= i < |es| && e in blockOf(es[i].value);
      OtherBlocks(es, blockOf, KeyOf(k), |index|, i, e);
    }
    NothingFrom(all, KeyOf(k));
  }

  lemma TableCount(file: Bytes, crc: Crc, blocks: seq<DataBlock>, index: seq<Item>)
    requires TableOk(file, crc, blocks, index)
    ensures |index| == |blocks| && Increasing(index, InternalLess)
  {
  }

  /** A block the filter excludes has no entry with the user key sought. */
  lemma Denied(file: Bytes, crc: Crc, blocks: seq<DataBlock>, index: seq<Item>, filter: Bytes, hash: HashFunction,
               k: Bytes, b: nat)
    requires TableOk(file, crc, blocks, index) && |index| == |blocks| && b < |index| && |k| >= TRAILER
    requires FirstAtOrAfter(index, InternalLess, k, b) && NoneDenied(filter, blocks, hash) && HashesUserKeys(hash)
    requires !BlockMayMatch(filter, blocks[b].handle.offset, hash(k))
    ensures TableAnswer(EntriesOf(AllItems(Groups(blocks, []))), KeyOf(k), None)
  {
    hide TableOk, BlockMayMatch, FirstFrom, FirstAtOrAfter, BytewiseRank, ExtractTag, ExtractUserKey, IsBlock, ReadBlock;
    var items := blocks[b].items;
    IndexHandle(file, crc, blocks, index, b);
    var p := SomeSeek(items, k);
    AnswerAt(file, crc, blocks, index, k, b, p);
    if p < |items| {
      assert hash(items[p].key) != hash(k);
      assert ExtractUserKey(items[p].key) != ExtractUserKey(k);
      RankKeepsOrder(ExtractUserKey(items[p].key), ExtractUserKey(k));
    }
  }

  lemma SomeSeek(items: seq<Item>, k: Bytes) returns (p: nat)
    requires Increasing(items, InternalLess)
    ensures FirstAtOrAfter(items, InternalLess, k, p)
  {
    hide KeyOf;
    p := 0;
    while p < |items| && InternalLess(items[p].key, k)
      invariant p <= |items| && forall i :: 0 <= i < p ==> InternalLess(items[i].key, k)
    {
      p := p + 1;
    }
    assert p < |items| ==> forall i :: p < i < |items| ==> InternalLess(items[p].key, items[i].key);
  }
}
