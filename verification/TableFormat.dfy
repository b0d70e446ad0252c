/** A table file (table/format.cc, table/table_builder.cc): data blocks, and an index whose keys separate them. */
module TableFormat {
  import opened Keys
  import opened Coding
  import opened Cursors
  import opened BlockFormat
  import opened BlockBuilders
  import opened DbFormat
  import opened TwoLevel
  import opened Versions

  datatype Handle = Handle(offset: DoubleWord, size: DoubleWord)

  function EncodeHandle(h: Handle): Bytes { EncodeVarint(h.offset) + EncodeVarint(h.size) }

  function DecodeHandle(b: Bytes): Option<Handle> {
    match GetVarint64(b) {
      case None => None
      case Some(o) =>
        match GetVarint64(o.1) {
          case None => None
          case Some(s) => Some(Handle(o.0, s.0))
        }
    }
  }

  lemma HandleRoundTrip(h: Handle)
    ensures DecodeHandle(EncodeHandle(h)) == Some(h)
  {
    hide EncodeVarint, GetVarint64;
    Varint64RoundTrip(h.offset, EncodeVarint(h.size));
    assert EncodeVarint(h.size) + [] == EncodeVarint(h.size);
    Varint64RoundTrip(h.size, []);
  }

  /** A compression type byte and a masked checksum follow every block. */
  const BLOCK_TRAILER: nat := 5
  const NO_COMPRESSION: byte := 0

  type Crc = Bytes -> bv32

  function StoredBlock(crc: Crc, contents: Bytes): Bytes {
    contents + [NO_COMPRESSION] + StoredCrc(crc(contents + [NO_COMPRESSION]))
  }

  /** None on truncation, a wrong checksum (if checked) or an unknown type. */
  function ReadBlock(file: Bytes, crc: Crc, verifyChecksums: bool, h: Handle): Option<Bytes> {
    var end := h.offset + h.size;
    if end + BLOCK_TRAILER > |file| then None
    else if verifyChecksums && LoadCrc(file[end+1..]) != crc(file[h.offset..end+1]) then None
    else if file[end] != NO_COMPRESSION then None
    else Some(file[h.offset..end])
  }

  lemma ReadsBack(file: Bytes, crc: Crc, verifyChecksums: bool, contents: Bytes, after: Bytes)
    requires |file| < 0x1_0000_0000_0000_0000 && |contents| < 0x1_0000_0000_0000_0000
    ensures ReadBlock(file + StoredBlock(crc, contents) + after, crc, verifyChecksums, Handle(|file|, |contents|))
         == Some(contents)
  {
    hide StoredCrc, LoadCrc;
    var whole, end := file + StoredBlock(crc, contents) + after, |file| + |contents|;
    StoredChecksum(crc(contents + [NO_COMPRESSION]), after);
    assert whole[end+1..] == StoredCrc(crc(contents + [NO_COMPRESSION])) + after;
    assert whole[|file|..end+1] == contents + [NO_COMPRESSION];
    assert whole[|file|..end] == contents;
  }

  lemma ReadsBackLonger(file: Bytes, more: Bytes, crc: Crc, h: Handle, contents: Bytes)
    requires forall v :: ReadBlock(file, crc, v, h) == Some(contents)
    ensures forall v :: ReadBlock(file + more, crc, v, h) == Some(contents)
  {
    hide LoadCrc;
    var end := h.offset + h.size;
    assert ReadBlock(file, crc, true, h) == Some(contents);
    SameCrc(file[end+1..], (file + more)[end+1..]);
    assert (file + more)[h.offset..end+1] == file[h.offset..end+1];
    assert (file + more)[h.offset..end] == file[h.offset..end];
  }

  lemma SameCrc(a: Bytes, b: Bytes)
    requires 4 <= |a| <= |b| && a[..4] == b[..4]
    ensures LoadCrc(a) == LoadCrc(b)
  {
    hide Unmask, DecodeFixed32;
    SameFixed32(a, b);
  }

  lemma SameFixed32(a: Bytes, b: Bytes)
    requires 4 <= |a| <= |b| && a[..4] == b[..4]
    ensures DecodeFixed32(a) == DecodeFixed32(b)
  {
    assert forall i :: 0 <= i < 4 ==> a[..4][i] == a[i] && b[..4][i] == b[i];
  }

  /** A data block of the table: what was added to it, how it is laid out, and where it is stored. */
  datatype DataBlock = DataBlock(items: seq<Item>, layout: Layout, handle: Handle)

  predicate AllKeysLong(items: seq<Item>) { forall i :: 0 <= i < |items| ==> |items[i].key| >= TRAILER }

  ghost predicate Stored(file: Bytes, crc: Crc, d: DataBlock) {
    && d.items != [] && AllKeysLong(d.items) && Increasing(d.items, InternalLess)
    && d.handle.offset + d.handle.size <= |file|
    && (forall v :: ReadBlock(file, crc, v, d.handle) == Some(file[d.handle.offset..d.handle.offset+d.handle.size]))
    && IsBlock(file[d.handle.offset..d.handle.offset+d.handle.size], d.items, d.layout)
  }

  /** The internal entries that items stand for. */
  function EntriesOf(items: seq<Item>): (es: seq<Entry>)
    ensures |es| == |items|
    ensures forall i :: 0 <= i < |es| ==> es[i] == Entry(KeyOf(items[i].key), items[i].value)
  {
    seq(|items|, i requires 0 <= i < |items| => Entry(KeyOf(items[i].key), items[i].value))
  }

  lemma EntriesSorted(items: seq<Item>)
    requires Increasing(items, InternalLess)
    ensures Sorted(EntriesOf(items))
  {
    assert forall i, j :: 0 <= i < j < |items| ==> InternalLess(items[i].key, items[j].key);
  }

  function LastKey(items: seq<Item>): Bytes
    requires items != []
  {
    items[|items|-1].key
  }

  /** The items of each block, and last those not yet in a block. */
  function Groups(blocks: seq<DataBlock>, current: seq<Item>): (gs: seq<seq<Item>>)
    ensures |gs| == |blocks| + if current == [] then 0 else 1
    ensures forall i :: 0 <= i < |blocks| ==> gs[i] == blocks[i].items
    ensures current != [] ==> gs[|blocks|] == current
  {
    seq(|blocks|, i requires 0 <= i < |blocks| => blocks[i].items) + if current == [] then [] else [current]
  }

  function AllItems(gs: seq<seq<Item>>): seq<Item> {
    if gs == [] then [] else AllItems(gs[..|gs|-1]) + gs[|gs|-1]
  }

  predicate NonEmpty(gs: seq<seq<Item>>) { forall i :: 0 <= i < |gs| ==> gs[i] != [] }

  /** Every group comes before the next. */
  predicate Chained(gs: seq<seq<Item>>) {
    && NonEmpty(gs)
    && forall i :: 0 < i < |gs| ==> InternalLess(LastKey(gs[i-1]), gs[i][0].key)
  }

  /** `k` may stand in the index for group `i`: it is the group's last key, or has a user key between those of that
      and of the next group's first. */
  predicate IndexKey(gs: seq<seq<Item>>, i: nat, k: Bytes)
    requires NonEmpty(gs) && i < |gs|
  {
    && |k| >= TRAILER
    && if i + 1 < |gs| then Separates(LastKey(gs[i]), gs[i+1][0].key, k)
       else k == LastKey(gs[i]) || KeyOf(LastKey(gs[i])).user < KeyOf(k).user
  }

  ghost predicate IndexOk(blocks: seq<DataBlock>, gs: seq<seq<Item>>, index: seq<Item>) {
    && |index| <= |blocks| <= |gs| && NonEmpty(gs)
    && forall i :: 0 <= i < |index| ==> index[i].value == EncodeHandle(blocks[i].handle) && IndexKey(gs, i, index[i].key)
  }

  ghost predicate AllStored(file: Bytes, crc: Crc, blocks: seq<DataBlock>) {
    forall i :: 0 <= i < |blocks| ==> Stored(file, crc, blocks[i])
  }

  /** Blocks lie at different places, the later ones further on. */
  predicate OffsetsAscend(blocks: seq<DataBlock>, end: nat) {
    && (forall i, j :: 0 <= i < j < |blocks| ==> blocks[i].handle.offset < blocks[j].handle.offset)
    && (forall i :: 0 <= i < |blocks| ==> blocks[i].handle.offset < end)
  }

  /** A finished table. */
  ghost predicate TableOk(file: Bytes, crc: Crc, blocks: seq<DataBlock>, index: seq<Item>) {
    && OffsetsAscend(blocks, |file|) && Increasing(index, InternalLess)
    && AllStored(file, crc, blocks) && Chained(Groups(blocks, []))
    && |index| == |blocks| && IndexOk(blocks, Groups(blocks, []), index)
  }

  /** Index keys ascend as their groups do. */
  lemma IndexAscends(gs: seq<seq<Item>>, i: nat, a: Bytes, b: Bytes)
    requires Chained(gs) && i + 1 < |gs| && IndexKey(gs, i, a) && IndexKey(gs, i + 1, b)
    requires forall j :: 0 <= j < |gs| ==> Increasing(gs[j], InternalLess)
    ensures InternalLess(a, b)
  {
    hide KeyOf;
    var g := gs[i+1];
    assert |g| > 1 ==> InternalLess(g[0].key, g[|g|-1].key);
  }

  /** A group that is written out is still the same group. */
  lemma SameGroups(blocks: seq<DataBlock>, current: seq<Item>, d: DataBlock)
    requires current != [] && d.items == current
    ensures Groups(blocks + [d], []) == Groups(blocks, current)
  {
  }
}
