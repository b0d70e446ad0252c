/** The format of a table's blocks: keys that share a prefix with the one before them, and restart points with whole
    keys (table/block_builder.cc, table/block.cc). */
module BlockFormat {
  import opened Keys
  import opened Coding

  datatype Item = Item(key: Bytes, value: Bytes) {
    predicate Fits() { |key| < 0x1_0000_0000 && |value| < 0x1_0000_0000 }
  }

  /** A comparator: `less` is a strict weak order. */
  type Comparator = (Bytes, Bytes) -> bool

  ghost predicate IsComparator(less: Comparator) {
    && (forall a :: !less(a, a))
    && (forall a, b, c :: less(a, b) && less(b, c) ==> less(a, c))
    && (forall a, b, c :: less(a, c) ==> less(a, b) || less(b, c))
  }

  predicate Increasing(items: seq<Item>, less: Comparator) {
    forall i, j :: 0 <= i < j < |items| ==> less(items[i].key, items[j].key)
  }

  /** `p` is the first item whose key is not before the target. */
  predicate FirstAtOrAfter(items: seq<Item>, less: Comparator, target: Bytes, p: nat) {
    && p <= |items|
    && (forall i :: 0 <= i < p ==> less(items[i].key, target))
    && (forall i :: p <= i < |items| ==> !less(items[i].key, target))
  }

  function EntryBytes(shared: nat, item: Item): Bytes
    requires shared <= |item.key|
  {
    EncodeVarint(shared) + EncodeVarint(|item.key| - shared) + EncodeVarint(|item.value|)
    + item.key[shared..] + item.value
  }

  /** The three lengths of an entry, and the bytes that follow them. */
  datatype Header = Header(shared: nat, nonShared: nat, valueLength: nat, rest: Bytes)

  function DecodeHeader(b: Bytes): (r: Option<Header>)
    ensures r.Some? ==> r.value.nonShared + r.value.valueLength <= |r.value.rest| <= |b| - 3
  {
    if |b| < 3 then None
    else match GetVarint32(b) {
      case None => None
      case Some(s) =>
        match GetVarint32(s.1) {
          case None => None
          case Some(n) =>
            match GetVarint32(n.1) {
              case None => None
              case Some(v) => if |v.1| < n.0 + v.0 then None else Some(Header(s.0, n.0, v.0, v.1))
            }
        }
    }
  }

  lemma VarintSize(v: nat)
    ensures |EncodeVarint(v)| >= 1
  {
  }

  lemma {:induction false} VarintAtMost(v: nat, k: nat)
    requires k > 0 && v < Power128(k)
    ensures |EncodeVarint(v)| <= k
  {
    if v >= 128 {
      assert k > 1;
      VarintAtMost(v / 128, k - 1);
    }
  }

  lemma EntryBytesSize(shared: nat, item: Item)
    requires shared <= |item.key| && item.Fits()
    ensures |EntryBytes(shared, item)| <= 15 + |item.key| + |item.value|
  {
    VarintWidths();
    VarintAtMost(shared, VARINT32_BYTES);
    VarintAtMost(|item.key| - shared, VARINT32_BYTES);
    VarintAtMost(|item.value|, VARINT32_BYTES);
  }

  lemma DecodeInvertsEntry(shared: nat, item: Item, rest: Bytes)
    requires shared <= |item.key| && item.Fits()
    ensures var b := EntryBytes(shared, item) + rest;
      DecodeHeader(b) == Some(Header(shared, |item.key| - shared, |item.value|, item.key[shared..] + item.value + rest))
  {
    hide EncodeVarint, GetVarint32;
    var n := |item.key| - shared;
    var tail := item.key[shared..] + item.value + rest;
    var b := EntryBytes(shared, item) + rest;
    assert b == EncodeVarint(shared) + (EncodeVarint(n) + (EncodeVarint(|item.value|) + tail));
    Varint32RoundTrip(shared, EncodeVarint(n) + (EncodeVarint(|item.value|) + tail));
    Varint32RoundTrip(n, EncodeVarint(|item.value|) + tail);
    Varint32RoundTrip(|item.value|, tail);
    VarintSize(shared);
    VarintSize(n);
    VarintSize(|item.value|);
  }

  function KeyBefore(items: seq<Item>, i: nat): Bytes
    requires i <= |items|
  {
    if i == 0 then [] else items[i-1].key
  }

  /** `data[a..b]` is the entry of an item after one with key `prev`. */
  predicate EntryAt(data: Bytes, a: nat, b: nat, prev: Bytes, item: Item, shared: nat) {
    && a <= b <= |data| && item.Fits() && shared <= |prev| && shared <= |item.key|
    && item.key[..shared] == prev[..shared] && data[a..b] == EntryBytes(shared, item)
  }

  /** Where the entries start (and the last one ends), the prefix each shares with the key before it, and which ones
      are restart points. */
  datatype Layout = Layout(offsets: seq<nat>, shared: seq<nat>, restarts: seq<nat>)

  ghost predicate EntriesAt(data: Bytes, items: seq<Item>, l: Layout) {
    && |l.offsets| == |items| + 1 && |l.shared| == |items| && l.offsets[0] == 0
    && forall i :: 0 <= i < |items| ==>
         EntryAt(data, l.offsets[i], l.offsets[i+1], KeyBefore(items, i), items[i], l.shared[i])
  }

  /** Restart points are entries with whole keys, the first entry being one. */
  predicate RestartsOk(items: seq<Item>, l: Layout) {
    && |l.shared| == |items|
    && l.restarts != [] && l.restarts[0] == 0
    && (forall r :: 0 < r < |l.restarts| ==> l.restarts[r-1] < l.restarts[r] < |items|)
    && (forall r :: 0 <= r < |l.restarts| && l.restarts[r] < |items| ==> l.shared[l.restarts[r]] == 0)
  }

  lemma EntrySize(data: Bytes, a: nat, b: nat, prev: Bytes, item: Item, shared: nat)
    requires EntryAt(data, a, b, prev, item, shared)
    ensures b >= a + 3 + |item.value|
  {
    hide EncodeVarint;
    VarintSize(shared);
    VarintSize(|item.key| - shared);
    VarintSize(|item.value|);
    assert |data[a..b]| == b - a;
  }

  lemma {:induction false} OffsetsGrow(data: Bytes, items: seq<Item>, l: Layout, i: nat, j: nat)
    requires EntriesAt(data, items, l) && i < j <= |items|
    ensures l.offsets[i] + 3 <= l.offsets[j]
    decreases j - i
  {
    hide EntryAt;
    assert EntryAt(data, l.offsets[i], l.offsets[i+1], KeyBefore(items, i), items[i], l.shared[i]);
    EntrySize(data, l.offsets[i], l.offsets[i+1], KeyBefore(items, i), items[i], l.shared[i]);
    if i + 1 < j {
      OffsetsGrow(data, items, l, i + 1, j);
    }
  }

  lemma {:induction false} RestartsGrow(items: seq<Item>, l: Layout, r: nat, s: nat)
    requires RestartsOk(items, l) && r < s < |l.restarts|
    ensures l.restarts[r] < l.restarts[s] < |items|
    decreases s - r
  {
    if r + 1 < s {
      RestartsGrow(items, l, r + 1, s);
    }
  }
}
