/** table/block_builder.cc */
module BlockBuilders {
  import opened Keys
  import opened Coding
  import opened BlockFormat

  /** A finished block: the entries, the offsets of the restart points, and their number. */
  ghost predicate IsBlock(data: Bytes, items: seq<Item>, l: Layout) {
    && EntriesAt(data, items, l) && RestartsOk(items, l)
    && var end := l.offsets[|items|];
      && |data| == end + 4 * |l.restarts| + 4 && |l.restarts| < 0x1_0000_0000
      && DecodeFixed32(data[|data|-4..]) == |l.restarts|
      && forall r :: 0 <= r < |l.restarts| ==>
           l.restarts[r] < |l.offsets| && DecodeFixed32(data[end+4*r..]) == l.offsets[l.restarts[r]]
  }

  /** A restart point every `interval` entries; `counter` entries since the last one. */
  predicate RestartsEvery(restarts: seq<nat>, interval: nat, n: nat, counter: nat) {
    && restarts != [] && restarts[|restarts|-1] + counter == n && counter <= interval
    && forall r :: 0 < r < |restarts| ==> restarts[r] == restarts[r-1] + interval
  }

  predicate RestartOffsets(restarts: seq<nat>, l: Layout) {
    && |restarts| == |l.restarts|
    && forall r :: 0 <= r < |restarts| ==> l.restarts[r] < |l.offsets| && restarts[r] == l.offsets[l.restarts[r]]
  }

  /** The builder's fields fit the items added. */
  ghost predicate Built(buffer: Bytes, restarts: seq<nat>, counter: nat, lastKey: Bytes, interval: nat,
                        items: seq<Item>, l: Layout) {
    && lastKey == KeyBefore(items, |items|)
    && EntriesAt(buffer, items, l) && l.offsets[|items|] == |buffer|
    && RestartsOk(items, l) && RestartsEvery(l.restarts, interval, |items|, counter) && RestartOffsets(restarts, l)
  }

  /** `n` is the length of the longest common prefix. */
  predicate LongestShared(a: Bytes, b: Bytes, n: nat) {
    && n <= |a| && n <= |b| && a[..n] == b[..n]
    && (n < |a| && n < |b| ==> a[n] != b[n])
  }

  /** A key between restart points leaves out all that it has in common with the key before it. */
  predicate SharesAll(items: seq<Item>, l: Layout) {
    && |l.shared| == |items|
    && forall i :: 0 <= i < |items| && i !in l.restarts ==> LongestShared(KeyBefore(items, i), items[i].key, l.shared[i])
  }

  lemma NothingBuilt(interval: nat)
    ensures Built([], [0], 0, [], interval, [], Layout([0], [], [0])) && SharesAll([], Layout([0], [], [0]))
  {
  }

  lemma SharesMore(items: seq<Item>, l: Layout, item: Item, shared: nat, end: nat, restart: bool)
    requires SharesAll(items, l) && RestartsOk(items, l)
    requires restart || LongestShared(KeyBefore(items, |items|), item.key, shared)
    ensures SharesAll(items + [item], Extended(l, |items|, end, shared, restart))
  {
    hide LongestShared;
    var more, after := items + [item], Extended(l, |items|, end, shared, restart);
    forall i | 0 <= i < |more| && i !in after.restarts ensures LongestShared(KeyBefore(more, i), more[i].key, after.shared[i]) {
      assert i !in l.restarts;
      assert KeyBefore(more, i) == KeyBefore(items, i);
      assert restart ==> after.restarts[|l.restarts|] == |items|;
    }
  }

  class BlockBuilder {
    const less: Comparator
    const restartInterval: nat
    var buffer: Bytes
    var restarts: seq<nat>
    var counter: nat
    var finished: bool
    var lastKey: Bytes
    /** What was added, and where it went. */
    ghost var items: seq<Item>
    ghost var layout: Layout

    ghost predicate Valid()
      reads this
    {
      && restartInterval >= 1 && Increasing(items, less)
      && Built(buffer, restarts, counter, lastKey, restartInterval, items, layout) && SharesAll(items, layout)
    }

    constructor (less: Comparator, restartInterval: nat)
      requires restartInterval >= 1
      ensures Valid() && !finished && items == [] && CurrentSizeEstimate() == 8
      ensures this.less == less && this.restartInterval == restartInterval
    {
      this.less, this.restartInterval := less, restartInterval;
      buffer, restarts, counter, finished, lastKey := [], [0], 0, false, [];
      items, layout := [], Layout([0], [], [0]);
      new;
      NothingBuilt(restartInterval);
    }

    method Reset()
      requires restartInterval >= 1
      modifies this
      ensures Valid() && !finished && items == [] && CurrentSizeEstimate() == 8
    {
      hide Built, SharesAll;
      buffer, restarts, counter, finished, lastKey := [], [0], 0, false, [];
      items, layout := [], Layout([0], [], [0]);
      NothingBuilt(restartInterval);
    }

    lemma LastKeyAdded()
      requires Valid()
      ensures lastKey == KeyBefore(items, |items|) && (items == [] <==> buffer == [])
    {
      if items == [] {
      } else {
        OffsetsGrow(buffer, items, layout, 0, |items|);
      }
    }

    function CurrentSizeEstimate(): nat
      reads this
    {
      |buffer| + |restarts| * 4 + 4
    }

    method Add(key: Bytes, value: Bytes)
      requires Valid() && !finished && IsComparator(less) && Item(key, value).Fits()
      requires items != [] ==> less(lastKey, key)
      modifies this
      ensures Valid() && !finished && items == old(items) + [Item(key, value)]
      ensures |buffer| > old(|buffer|)
      ensures CurrentSizeEstimate() <= old(CurrentSizeEstimate()) + 19 + |key| + |value|
    {
      hide Built, IsComparator, Increasing, EntryBytes, SharesAll;
      ghost var item, restart := Item(key, value), counter >= restartInterval;
      IncreasingStill(buffer, restarts, counter, lastKey, restartInterval, items, layout, less, item);
      var shared := 0;
      if counter < restartInterval {
        var minLength := if |lastKey| < |key| then |lastKey| else |key|;
        while shared < minLength && lastKey[shared] == key[shared]
          invariant shared <= minLength && lastKey[..shared] == key[..shared]
        {
          shared := shared + 1;
        }
      } else {
        restarts := restarts + [|buffer|];
        counter := 0;
      }
      EntryBytesSize(shared, item);
      AppendEntry(shared, key, value);
      lastKey := lastKey[..shared] + key[shared..];
      counter := counter + 1;
      assert lastKey == key;
      AddsItem(old(buffer), old(restarts), old(counter), old(lastKey), restartInterval, items, layout, item, shared);
      SharesNext(old(buffer), old(restarts), old(counter), old(lastKey), restartInterval, items, layout, item, shared, |buffer|);
      items := items + [item];
      layout := Extended(layout, |old(items)|, |buffer|, shared, restart);
    }

    /** The three lengths, what the key does not share, and the value. */
    method AppendEntry(shared: nat, key: Bytes, value: Bytes)
      requires shared <= |key|
      modifies `buffer
      ensures buffer == old(buffer) + EntryBytes(shared, Item(key, value))
    {
      var nonShared := |key| - shared;
      buffer := buffer + EncodeVarint(shared);
      buffer := buffer + EncodeVarint(nonShared);
      buffer := buffer + EncodeVarint(|value|);
      buffer := buffer + key[shared..];
      buffer := buffer + value;
    }

    /** Appends the restart array. */
    method Finish() returns (block: Bytes)
      requires Valid() && !finished && |buffer| < 0x1_0000_0000 && |restarts| < 0x1_0000_0000
      modifies `buffer, `finished
      ensures block == buffer && finished && IsBlock(block, items, layout) && |block| == old(CurrentSizeEstimate())
      ensures SharesAll(items, layout) && RestartsEvery(layout.restarts, restartInterval, |items|, counter)
    {
      hide Built, IsBlock, Increasing, SharesAll, RestartsEvery;
      BuiltEvery(buffer, restarts, counter, lastKey, restartInterval, items, layout);
      ghost var words := RestartWords(buffer, restarts, counter, lastKey, restartInterval, items, layout);
      for i := 0 to |restarts|
        invariant buffer == old(buffer) + Fixed32Array(words[..i])
      {
        assert words[..i+1][..i] == words[..i];
        buffer := buffer + EncodeFixed32(restarts[i]);
      }
      buffer := buffer + EncodeFixed32(|restarts|);
      finished := true;
      block := buffer;
      assert words[..|restarts|] == words;
      FinishedIsBlock(old(buffer), restarts, counter, lastKey, restartInterval, items, layout, words);
    }
  }

  lemma RestartWords(buffer: Bytes, restarts: seq<nat>, counter: nat, lastKey: Bytes, interval: nat,
                     items: seq<Item>, l: Layout) returns (words: seq<Word>)
    requires Built(buffer, restarts, counter, lastKey, interval, items, l) && |buffer| < 0x1_0000_0000
    ensures |words| == |restarts| && forall i :: 0 <= i < |restarts| ==> words[i] == restarts[i]
  {
    forall r | 0 <= r < |restarts| ensures restarts[r] <= |buffer| {
      if l.restarts[r] < |items| {
        OffsetsGrow(buffer, items, l, l.restarts[r], |items|);
      }
    }
    words := restarts;
  }

  lemma FinishedIsBlock(buffer: Bytes, restarts: seq<nat>, counter: nat, lastKey: Bytes, interval: nat,
                        items: seq<Item>, l: Layout, words: seq<Word>)
    requires Built(buffer, restarts, counter, lastKey, interval, items, l)
    requires |words| == |restarts| < 0x1_0000_0000 && forall i :: 0 <= i < |restarts| ==> words[i] == restarts[i]
    ensures IsBlock(buffer + Fixed32Array(words) + EncodeFixed32(|restarts|), items, l)
  {
    hide EncodeFixed32, DecodeFixed32, Fixed32Array, EntryBytes, EntryAt, EntriesAt, RestartsOk, RestartsEvery;
    OffsetCount(buffer, items, l);
    var count := EncodeFixed32(|restarts|);
    var data := buffer + Fixed32Array(words) + count;
    var end := l.offsets[|items|];
    assert data[|data|-4..] == count + [];
    Fixed32RoundTrip(|restarts|, []);
    assert data[end..] == Fixed32Array(words) + count;
    forall r | 0 <= r < |restarts| ensures DecodeFixed32(data[end+4*r..]) == l.offsets[l.restarts[r]] {
      Fixed32ArrayAt(words, count, r);
      assert data[end+4*r..] == data[end..][4*r..];
    }
    LongerData(buffer, data, items, l);
  }

  lemma LongerData(a: Bytes, b: Bytes, items: seq<Item>, l: Layout)
    requires EntriesAt(a, items, l) && a <= b
    ensures EntriesAt(b, items, l)
  {
    hide EntryBytes;
    forall i | 0 <= i < |items|
      ensures EntryAt(b, l.offsets[i], l.offsets[i+1], KeyBefore(items, i), items[i], l.shared[i])
    {
      assert EntryAt(a, l.offsets[i], l.offsets[i+1], KeyBefore(items, i), items[i], l.shared[i]);
      assert b[l.offsets[i]..l.offsets[i+1]] == a[l.offsets[i]..l.offsets[i+1]];
    }
  }

  function Extended(l: Layout, n: nat, end: nat, shared: nat, restart: bool): Layout {
    Layout(l.offsets + [end], l.shared + [shared], if restart then l.restarts + [n] else l.restarts)
  }

  lemma IncreasingStill(buffer: Bytes, restarts: seq<nat>, counter: nat, lastKey: Bytes, interval: nat,
                        items: seq<Item>, l: Layout, less: Comparator, item: Item)
    requires Built(buffer, restarts, counter, lastKey, interval, items, l)
    requires IsComparator(less) && Increasing(items, less) && (items != [] ==> less(lastKey, item.key))
    ensures Increasing(items + [item], less)
  {
  }

  /** One more entry, sharing a prefix with the last key, or starting a new run of entries. */
  lemma AddsItem(buffer: Bytes, restarts: seq<nat>, counter: nat, lastKey: Bytes, interval: nat,
                 items: seq<Item>, l: Layout, item: Item, shared: nat)
    requires interval >= 1 && Built(buffer, restarts, counter, lastKey, interval, items, l)
    requires item.Fits() && shared <= |item.key| && shared <= |lastKey| && item.key[..shared] == lastKey[..shared]
    requires counter >= interval ==> shared == 0
    ensures var restart := counter >= interval;
      var after := buffer + EntryBytes(shared, item);
      && |after| > |buffer|
      && Built(after, if restart then restarts + [|buffer|] else restarts, (if restart then 0 else counter) + 1, item.key,
               interval, items + [item], Extended(l, |items|, |after|, shared, restart))
  {
    hide EntriesAt, EntryBytes, RestartsOk, RestartsEvery, RestartOffsets;
    var restart := counter >= interval;
    var after := buffer + EntryBytes(shared, item);
    AddsEntry(buffer, items, l, item, shared, restart);
    OffsetCount(buffer, items, l);
    RestartsStillOk(items, l, item, shared, |after|, interval, counter);
    RestartOffsetsStill(restarts, items, l, shared, |after|, |buffer|, restart);
    assert (items + [item])[|items|] == item;
  }

  lemma SharesNext(buffer: Bytes, restarts: seq<nat>, counter: nat, lastKey: Bytes, interval: nat,
                   items: seq<Item>, l: Layout, item: Item, shared: nat, end: nat)
    requires Built(buffer, restarts, counter, lastKey, interval, items, l) && SharesAll(items, l)
    requires counter >= interval || LongestShared(lastKey, item.key, shared)
    ensures SharesAll(items + [item], Extended(l, |items|, end, shared, counter >= interval))
  {
    hide EntriesAt, RestartsOk, RestartsEvery, RestartOffsets, SharesAll, LongestShared;
    SharesMore(items, l, item, shared, end, counter >= interval);
  }

  lemma BuiltEvery(buffer: Bytes, restarts: seq<nat>, counter: nat, lastKey: Bytes, interval: nat,
                   items: seq<Item>, l: Layout)
    requires Built(buffer, restarts, counter, lastKey, interval, items, l)
    ensures RestartsEvery(l.restarts, interval, |items|, counter)
  {
  }

  lemma RestartOffsetsStill(restarts: seq<nat>, items: seq<Item>, l: Layout, shared: nat, end: nat, size: nat, restart: bool)
    requires RestartOffsets(restarts, l) && |l.offsets| == |items| + 1 && l.offsets[|items|] == size
    ensures RestartOffsets(if restart then restarts + [size] else restarts, Extended(l, |items|, end, shared, restart))
  {
  }

  lemma OffsetCount(buffer: Bytes, items: seq<Item>, l: Layout)
    requires EntriesAt(buffer, items, l)
    ensures |l.offsets| == |items| + 1
  {
  }

  lemma RestartsStillOk(items: seq<Item>, l: Layout, item: Item, shared: nat, end: nat, interval: nat, counter: nat)
    requires interval >= 1 && RestartsOk(items, l) && RestartsEvery(l.restarts, interval, |items|, counter)
    requires counter >= interval || items == [] ==> shared == 0
    ensures var restart := counter >= interval;
      var k := Extended(l, |items|, end, shared, restart);
      && RestartsOk(items + [item], k)
      && RestartsEvery(k.restarts, interval, |items| + 1, (if restart then 0 else counter) + 1)
  {
    if counter >= interval {
      RestartHere(items, l, item, end);
    } else {
      NoRestartHere(items, l, item, shared, end);
    }
  }

  lemma RestartHere(items: seq<Item>, l: Layout, item: Item, end: nat)
    requires RestartsOk(items, l) && l.restarts[|l.restarts|-1] < |items|
    ensures RestartsOk(items + [item], Extended(l, |items|, end, 0, true))
  {
    var k := Extended(l, |items|, end, 0, true);
    forall r | 0 <= r < |k.restarts| ensures k.restarts[r] <= |items| && k.shared[k.restarts[r]] == 0 {
      if r < |l.restarts| && r > 0 {
        assert l.restarts[r-1] < l.restarts[r];
      }
    }
  }

  lemma NoRestartHere(items: seq<Item>, l: Layout, item: Item, shared: nat, end: nat)
    requires RestartsOk(items, l) && (items == [] ==> shared == 0)
    ensures RestartsOk(items + [item], Extended(l, |items|, end, shared, false))
  {
    var k := Extended(l, |items|, end, shared, false);
    forall r | 0 <= r < |k.restarts| ensures k.restarts[r] <= |items| && k.shared[k.restarts[r]] == 0 {
      if r > 0 {
        assert l.restarts[r-1] < l.restarts[r];
      }
    }
  }

  lemma AddsEntry(buffer: Bytes, items: seq<Item>, l: Layout, item: Item, shared: nat, restart: bool)
    requires EntriesAt(buffer, items, l) && l.offsets[|items|] == |buffer| && item.Fits()
    requires shared <= |item.key| && shared <= |KeyBefore(items, |items|)|
    requires item.key[..shared] == KeyBefore(items, |items|)[..shared]
    ensures var after := buffer + EntryBytes(shared, item);
      && EntriesAt(after, items + [item], Extended(l, |items|, |after|, shared, restart)) && |after| > |buffer|
  {
    var after := buffer + EntryBytes(shared, item);
    var more, k := items + [item], Extended(l, |items|, |after|, shared, restart);
    hide EntryBytes;
    assert after[|buffer|..|after|] == EntryBytes(shared, item);
    forall i | 0 <= i < |more|
      ensures EntryAt(after, k.offsets[i], k.offsets[i+1], KeyBefore(more, i), more[i], k.shared[i])
    {
      if i < |items| {
        assert EntryAt(buffer, l.offsets[i], l.offsets[i+1], KeyBefore(items, i), items[i], l.shared[i]);
        assert after[l.offsets[i]..l.offsets[i+1]] == buffer[l.offsets[i]..l.offsets[i+1]];
        assert KeyBefore(more, i) == KeyBefore(items, i);
      } else {
        assert KeyBefore(more, i) == KeyBefore(items, i);
      }
    }
    EntrySize(after, |buffer|, |after|, KeyBefore(items, |items|), item, shared);
  }
}
