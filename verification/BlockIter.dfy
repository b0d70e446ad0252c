/** Reading blocks (table/block.cc).  An iterator works on any bytes; on a well-formed block it is a cursor over the
    block's items. */
module BlockIters {
  import opened Keys
  import opened Coding
  import opened BlockFormat
  import opened BlockBuilders
  import opened Cursors

  /** Where the restart array starts and how many restarts it has; None when the block is too small for them. */
  function RestartsOf(data: Bytes): (r: Option<(nat, nat)>)
    ensures r.Some? ==> r.value.0 + 4 * r.value.1 + 4 == |data|
  {
    if |data| < 4 then None
    else
      var n := DecodeFixed32(data[|data|-4..]);
      if n > (|data| - 4) / 4 then None else Some((|data| - (1 + n) * 4, n))
  }

  lemma RestartsOfBlock(data: Bytes, items: seq<Item>, l: Layout)
    requires IsBlock(data, items, l)
    ensures RestartsOf(data) == Some((l.offsets[|items|], |l.restarts|)) && |l.restarts| > 0
  {
  }

  /** DecodeEntry, with its fast path for lengths of one byte each. */
  method DecodeEntry(b: Bytes) returns (r: Option<Header>)
    ensures r == DecodeHeader(b)
  {
    if |b| < 3 {
      return None;
    }
    var shared: nat, nonShared: nat, valueLength: nat, rest: Bytes := b[0] as nat, b[1] as nat, b[2] as nat, b[3..];
    if shared < 128 && nonShared < 128 && valueLength < 128 {
      OneByte(b);
      OneByte(b[1..]);
      OneByte(b[2..]);
    } else {
      var s := GetVarint32(b);
      if s == None {
        return None;
      }
      var n := GetVarint32(s.value.1);
      if n == None {
        return None;
      }
      var v := GetVarint32(n.value.1);
      if v == None {
        return None;
      }
      shared, nonShared, valueLength, rest := s.value.0, n.value.0, v.value.0, v.value.1;
    }
    if |rest| < nonShared + valueLength {
      return None;
    }
    return Some(Header(shared, nonShared, valueLength, rest));
  }

  lemma OneByte(b: Bytes)
    requires b != [] && b[0] < 128
    ensures GetVarint32(b) == Some((b[0] as nat, b[1..]))
  {
  }

  /** What ParseNextKey makes of the entry at `at`: its whole key and where its value lies. */
  datatype Parsed = Parsed(key: Bytes, valueStart: nat, valueSize: nat)

  function ParseAt(data: Bytes, at: nat, limit: nat, key: Bytes): (r: Option<Parsed>)
    requires at <= limit <= |data|
    ensures r.Some? ==> at + 3 <= r.value.valueStart && r.value.valueStart + r.value.valueSize <= limit
  {
    match DecodeHeader(data[at..limit]) {
      case None => None
      case Some(h) =>
        if |key| < h.shared then None
        else Some(Parsed(key[..h.shared] + h.rest[..h.nonShared], limit - |h.rest| + h.nonShared, h.valueLength))
    }
  }

  /** Parsing where an item starts gives the item, from the key before it, or from any key at a restart point. */
  lemma ParseItem(data: Bytes, items: seq<Item>, l: Layout, i: nat, key: Bytes)
    requires EntriesAt(data, items, l) && i < |items| && l.offsets[|items|] <= |data|
    requires key == KeyBefore(items, i) || l.shared[i] == 0
    ensures var end, value := l.offsets[|items|], items[i].value;
      && l.offsets[i] < l.offsets[i+1] <= end && |value| <= l.offsets[i+1]
      && ParseAt(data, l.offsets[i], end, key) == Some(Parsed(items[i].key, l.offsets[i+1] - |value|, |value|))
      && data[l.offsets[i+1] - |value|..l.offsets[i+1]] == value
  {
    hide EntryBytes, DecodeHeader;
    var a, b, end, item, shared := l.offsets[i], l.offsets[i+1], l.offsets[|items|], items[i], l.shared[i];
    assert EntryAt(data, a, b, KeyBefore(items, i), item, shared);
    OffsetsGrow(data, items, l, i, i + 1);
    if i + 1 < |items| {
      OffsetsGrow(data, items, l, i + 1, |items|);
    }
    var rest := data[b..end];
    assert data[a..end] == data[a..b] + rest;
    DecodeInvertsEntry(shared, item, rest);
    ValueEndsEntry(data, a, b, shared, item);
    assert (item.key[shared..] + item.value + rest)[..|item.key| - shared] == item.key[shared..];
    assert item.key == item.key[..shared] + item.key[shared..];
    assert key[..shared] == item.key[..shared];
  }

  lemma ValueEndsEntry(data: Bytes, a: nat, b: nat, shared: nat, item: Item)
    requires a <= b <= |data| && shared <= |item.key| && data[a..b] == EntryBytes(shared, item)
    ensures |item.value| <= b - a && data[b - |item.value|..b] == item.value
  {
    hide EncodeVarint;
    var n := b - a - |item.value|;
    assert data[a..b][n..] == item.value;
    assert data[a..b][n..] == data[a + n..b];
  }

  /** The block an iterator works on is what the builder made of the items. */
  ghost predicate BlockOk(data: Bytes, restarts: nat, numRestarts: nat, items: seq<Item>, l: Layout, less: Comparator) {
    && IsBlock(data, items, l) && restarts == l.offsets[|items|] && numRestarts == |l.restarts|
    && IsComparator(less) && Increasing(items, less)
  }

  function RestartPoint(data: Bytes, restarts: nat, r: nat): nat
    requires restarts + 4 * r + 4 <= |data|
  {
    DecodeFixed32(data[restarts+4*r..])
  }

  lemma RestartFacts(data: Bytes, restarts: nat, numRestarts: nat, items: seq<Item>, l: Layout, less: Comparator, r: nat)
    requires BlockOk(data, restarts, numRestarts, items, l, less) && r < numRestarts
    ensures |l.offsets| == |items| + 1 && |l.restarts| == numRestarts && l.restarts[r] <= |items|
    ensures r > 0 ==> l.restarts[r] < |items|
    ensures restarts + 4 * r + 4 <= |data| && RestartPoint(data, restarts, r) == l.offsets[l.restarts[r]]
    ensures l.restarts[r] < |items| ==> |l.shared| == |items| && l.shared[l.restarts[r]] == 0
    ensures l.restarts[0] == 0 && l.offsets[0] == 0
  {
  }

  /** The key at a restart point can be read off its entry alone. */
  lemma RestartKey(data: Bytes, restarts: nat, numRestarts: nat, items: seq<Item>, l: Layout, less: Comparator, r: nat)
    requires BlockOk(data, restarts, numRestarts, items, l, less) && 0 < r < numRestarts
    ensures l.restarts[r] < |items| && l.offsets[l.restarts[r]] <= restarts <= |data|
    ensures var h := DecodeHeader(data[l.offsets[l.restarts[r]]..restarts]);
      h.Some? && h.value.shared == 0 && h.value.rest[..h.value.nonShared] == items[l.restarts[r]].key
  {
    RestartFacts(data, restarts, numRestarts, items, l, less, r);
    WholeKey(data, items, l, l.restarts[r]);
  }

  lemma WholeKey(data: Bytes, items: seq<Item>, l: Layout, i: nat)
    requires EntriesAt(data, items, l) && i < |items| && l.offsets[|items|] <= |data| && l.shared[i] == 0
    ensures l.offsets[i] < l.offsets[|items|]
    ensures var h := DecodeHeader(data[l.offsets[i]..l.offsets[|items|]]);
      h.Some? && h.value.shared == 0 && h.value.rest[..h.value.nonShared] == items[i].key
  {
    hide EntryBytes, DecodeHeader;
    var a, b, end, item := l.offsets[i], l.offsets[i+1], l.offsets[|items|], items[i];
    assert EntryAt(data, a, b, KeyBefore(items, i), item, 0);
    OffsetsGrow(data, items, l, i, i + 1);
    if i + 1 < |items| {
      OffsetsGrow(data, items, l, i + 1, |items|);
    }
    assert data[a..end] == data[a..b] + data[b..end];
    DecodeInvertsEntry(0, item, data[b..end]);
    assert (item.key[0..] + item.value + data[b..end])[..|item.key|] == item.key;
  }

  class BlockIter {
    const less: Comparator
    const data: Bytes
    const restarts: nat
    const numRestarts: nat
    var current: nat
    var restartIndex: nat
    var key: Bytes
    /** The value is data[valueStart..valueStart+valueSize]. */
    var valueStart: nat
    var valueSize: nat
    var corrupt: bool
    /** When `intact`, the block holds these items. */
    ghost const intact: bool
    ghost const items: seq<Item>
    ghost const layout: Layout
    ghost var pos: nat

    ghost predicate Structured()
    {
      && numRestarts > 0 && restarts + 4 * numRestarts + 4 <= |data|
      && (intact ==> BlockOk(data, restarts, numRestarts, items, layout, less))
    }

    /** What holds of an iterator over any bytes. */
    ghost predicate Bounded()
      reads this
    {
      && Structured() && current <= restarts
      && (current < restarts ==> restartIndex < numRestarts && valueStart + valueSize <= restarts)
    }

    ghost predicate Ok()
      reads this
    {
      Bounded() && (intact ==> At(pos))
    }

    /** The iterator stands at item `pos`. */
    ghost predicate At(pos: nat)
      reads this
    {
      && Bounded() && intact && !corrupt && pos <= |items|
      && if pos == |items| then current == restarts
         else
           && |layout.offsets| == |items| + 1 && current == layout.offsets[pos] < restarts
           && key == items[pos].key && valueStart + valueSize == layout.offsets[pos+1]
           && data[valueStart..valueStart+valueSize] == items[pos].value
           && RestartPoint(data, restarts, restartIndex) <= current
           && (restartIndex + 1 < numRestarts ==> current <= RestartPoint(data, restarts, restartIndex + 1))
    }

    /** ParseNextKey would find item `i`. */
    ghost predicate Ready(i: nat)
      reads this
    {
      && Structured() && intact && !corrupt && |layout.offsets| == |items| + 1 && |layout.shared| == |items| && i <= |items|
      && valueStart + valueSize == layout.offsets[i]
      && (i < |items| ==> key == KeyBefore(items, i) || layout.shared[i] == 0)
      && restartIndex < numRestarts && RestartPoint(data, restarts, restartIndex) <= layout.offsets[i]
    }

    predicate Valid()
      reads this
    {
      current < restarts
    }

    function NextEntryOffset(): nat
      reads this
    {
      valueStart + valueSize
    }

    function GetRestartPoint(index: nat): nat
      requires restarts + 4 * index + 4 <= |data|
    {
      RestartPoint(data, restarts, index)
    }

    /** `intact` may be claimed of what a builder made of `items`. */
    constructor (less: Comparator, data: Bytes, restarts: nat, numRestarts: nat,
                 ghost intact: bool, ghost items: seq<Item>, ghost layout: Layout)
      requires RestartsOf(data) == Some((restarts, numRestarts)) && numRestarts > 0
      requires intact ==> IsBlock(data, items, layout) && IsComparator(less) && Increasing(items, less)
      ensures Ok() && !Valid() && this.less == less && this.data == data
      ensures this.intact == intact && this.items == items && pos == |items|
    {
      this.less, this.data, this.restarts, this.numRestarts := less, data, restarts, numRestarts;
      this.intact, this.items, this.layout := intact, items, layout;
      current, restartIndex := restarts, numRestarts;
      key, valueStart, valueSize, corrupt := [], 0, 0, false;
      pos := |items|;
    }

    method SeekToRestartPoint(index: nat)
      requires Structured() && index < numRestarts
      modifies this
      ensures restartIndex == index && key == [] && corrupt == old(corrupt) && current == old(current) && pos == old(pos)
      ensures NextEntryOffset() == GetRestartPoint(index)
      ensures intact && !corrupt ==> Ready(layout.restarts[index])
    {
      if intact {
        RestartFacts(data, restarts, numRestarts, items, layout, less, index);
      }
      key := [];
      restartIndex := index;
      valueStart, valueSize := GetRestartPoint(index), 0;
    }

    method CorruptionError()
      requires Structured()
      modifies this
      ensures Bounded() && !Valid() && corrupt && pos == old(pos)
    {
      current, restartIndex := restarts, numRestarts;
      corrupt, key, valueStart, valueSize := true, [], 0, 0;
    }

    method ParseNextKey(ghost i: nat) returns (ok: bool)
      requires Structured() && restartIndex < numRestarts
      modifies this
      ensures pos == old(pos) && Bounded() && ok == Valid() && (ok ==> NextEntryOffset() > old(NextEntryOffset()))
      ensures old(Ready(i)) ==> At(i)
    {
      hide BlockOk, ParseAt, RestartPoint, KeyBefore;
      if old(Ready(i)) {
        ReadyFinds(data, restarts, numRestarts, items, layout, less, i, key);
      }
      current := NextEntryOffset();
      if current >= restarts {
        current, restartIndex := restarts, numRestarts;
        return false;
      }
      var parsed := ParseAt(data, current, restarts, key);
      if parsed == None {
        CorruptionError();
        return false;
      }
      key, valueStart, valueSize := parsed.value.key, parsed.value.valueStart, parsed.value.valueSize;
      while restartIndex + 1 < numRestarts && GetRestartPoint(restartIndex + 1) < current
        modifies `restartIndex
        invariant restartIndex < numRestarts
        invariant old(Ready(i)) ==> GetRestartPoint(restartIndex) <= current
      {
        restartIndex := restartIndex + 1;
      }
      return true;
    }

    /** From item `i` the next one can be parsed. */
    lemma ReadyNext(i: nat)
      requires At(i) && i < |items|
      ensures Ready(i + 1)
    {
      NextOffset(data, restarts, numRestarts, items, layout, less, i);
    }

    function Key(): (k: Bytes)
      requires Ok() && Valid()
      reads this
      ensures intact ==> k == items[pos].key
    {
      key
    }

    function Value(): (v: Bytes)
      requires Ok() && Valid()
      reads this
      ensures intact ==> v == items[pos].value
    {
      data[valueStart..valueStart+valueSize]
    }

    method Next()
      requires Ok() && Valid()
      modifies this
      ensures Ok() && (intact ==> pos == old(pos) + 1)
    {
      hide BlockOk, RestartPoint, KeyBefore;
      if intact {
        ReadyNext(pos);
      }
      var _ := ParseNextKey(pos + 1);
      pos := pos + 1;
    }

    /** Goes back to the last restart point before the current entry and parses on from there. */
    method Prev()
      requires Ok() && Valid()
      modifies this
      ensures Ok() && (intact ==> pos == StepBack(old(pos), |items|))
    {
      hide BlockOk, RestartPoint, KeyBefore;
      ghost var p := pos;
      var original := current;
      while GetRestartPoint(restartIndex) >= original
        invariant restartIndex < numRestarts && !(intact && corrupt)
        decreases restartIndex
      {
        if restartIndex == 0 {
          if intact {
            FirstRestart(data, restarts, numRestarts, items, layout, less, p);
          }
          current, restartIndex := restarts, numRestarts;
          pos := |items|;
          return;
        }
        restartIndex := restartIndex - 1;
      }
      if intact {
        RestartBefore(data, restarts, numRestarts, items, layout, less, restartIndex, p);
      }
      SeekToRestartPoint(restartIndex);
      ghost var i: nat := if intact then layout.restarts[restartIndex] else 0;
      var more := true;
      while more
        modifies this
        invariant more ==> restartIndex < numRestarts && (intact ==> Ready(i) && i < p)
        invariant !more ==> Bounded() && (intact ==> At(i) && i + 1 == p)
        decreases more, restarts - NextEntryOffset()
      {
        more := ParseNextKey(i);
        if more {
          more := NextEntryOffset() < original;
        }
        if intact {
          OffsetsOrder(data, restarts, numRestarts, items, layout, less, i, p);
          if more {
            ReadyNext(i);
            i := i + 1;
          }
        }
      }
      pos := i;
    }

    method SeekToFirst()
      requires Ok()
      modifies this
      ensures Ok() && (intact ==> pos == 0)
    {
      hide BlockOk, RestartPoint, KeyBefore;
      if intact {
        RestartFacts(data, restarts, numRestarts, items, layout, less, 0);
      }
      SeekToRestartPoint(0);
      var _ := ParseNextKey(0);
      pos := 0;
    }

    method SeekToLast()
      requires Ok()
      modifies this
      ensures Ok() && (intact ==> pos == LastPosition(|items|))
    {
      hide BlockOk, RestartPoint, KeyBefore;
      if intact {
        RestartFacts(data, restarts, numRestarts, items, layout, less, numRestarts - 1);
      }
      SeekToRestartPoint(numRestarts - 1);
      ghost var i: nat := if intact then layout.restarts[numRestarts-1] else 0;
      var more := true;
      while more
        invariant more ==> restartIndex < numRestarts && (intact ==> Ready(i) && (i < |items| || |items| == 0))
        invariant !more ==> Bounded() && (intact ==> At(i) && i == LastPosition(|items|))
        decreases more, restarts - NextEntryOffset()
      {
        more := ParseNextKey(i);
        if more {
          more := NextEntryOffset() < restarts;
        }
        if intact && i < |items| {
          OffsetsOrder(data, restarts, numRestarts, items, layout, less, i, |items|);
          LastOffset(data, restarts, numRestarts, items, layout, less);
          if more {
            ReadyNext(i);
            i := i + 1;
          }
        }
      }
      pos := i;
    }

    /** Binary search for the last restart point whose key is before the target, then a linear one. */
    method Seek(target: Bytes)
      requires Ok()
      modifies this
      ensures Ok() && (intact ==> FirstAtOrAfter(items, less, target, pos))
    {
      hide BlockOk, RestartPoint, KeyBefore, DecodeHeader;
      var left: nat, right: nat := 0, numRestarts - 1;
      while left < right
        invariant left <= right < numRestarts && !(intact && corrupt)
        invariant intact && left > 0 ==> left < |layout.restarts| && layout.restarts[left] < |items|
                                         && less(items[layout.restarts[left]].key, target)
      {
        var mid := (left + right + 1) / 2;
        var regionOffset := GetRestartPoint(mid);
        if intact {
          RestartFacts(data, restarts, numRestarts, items, layout, less, mid);
          RestartKey(data, restarts, numRestarts, items, layout, less, mid);
        }
        var decoded := if regionOffset <= restarts then DecodeHeader(data[regionOffset..restarts]) else None;
        if decoded == None || decoded.value.shared != 0 {
          CorruptionError();
          return;
        }
        var midKey := decoded.value.rest[..decoded.value.nonShared];
        if less(midKey, target) {
          left := mid;
        } else {
          right := mid - 1;
        }
      }
      if intact {
        RestartFacts(data, restarts, numRestarts, items, layout, less, left);
        if left > 0 {
          AllBefore(data, restarts, numRestarts, items, layout, less, target, layout.restarts[left]);
        }
      }
      SeekToRestartPoint(left);
      ghost var i: nat := if intact then layout.restarts[left] else 0;
      var more := true;
      while more
        invariant more ==> restartIndex < numRestarts
                           && (intact ==> Ready(i) && forall j :: 0 <= j < i ==> less(items[j].key, target))
        invariant !more ==> Bounded() && (intact ==> At(i) && FirstAtOrAfter(items, less, target, i))
        decreases more, restarts - NextEntryOffset()
      {
        more := ParseNextKey(i);
        if more {
          more := less(key, target);
        }
        if intact {
          if more {
            ReadyNext(i);
            i := i + 1;
          } else if i < |items| {
            AllAfter(data, restarts, numRestarts, items, layout, less, target, i);
          }
        }
      }
      pos := i;
    }
  }

  lemma LastOffset(data: Bytes, restarts: nat, numRestarts: nat, items: seq<Item>, l: Layout, less: Comparator)
    requires BlockOk(data, restarts, numRestarts, items, l, less)
    ensures |l.offsets| == |items| + 1 && l.offsets[|items|] == restarts
  {
  }

  lemma AllBefore(data: Bytes, restarts: nat, numRestarts: nat, items: seq<Item>, l: Layout, less: Comparator,
                  target: Bytes, i: nat)
    requires BlockOk(data, restarts, numRestarts, items, l, less) && i < |items| && less(items[i].key, target)
    ensures forall j :: 0 <= j < i ==> less(items[j].key, target)
  {
  }

  lemma AllAfter(data: Bytes, restarts: nat, numRestarts: nat, items: seq<Item>, l: Layout, less: Comparator,
                 target: Bytes, i: nat)
    requires BlockOk(data, restarts, numRestarts, items, l, less) && i < |items| && !less(items[i].key, target)
    ensures forall j :: i <= j < |items| ==> !less(items[j].key, target)
  {
    forall j | i <= j < |items| ensures !less(items[j].key, target) {
      assert i < j ==> less(items[i].key, items[j].key);
    }
  }

  lemma NextOffset(data: Bytes, restarts: nat, numRestarts: nat, items: seq<Item>, l: Layout, less: Comparator, i: nat)
    requires BlockOk(data, restarts, numRestarts, items, l, less) && i < |items|
    ensures |l.shared| == |items| && |l.offsets| == |items| + 1 && l.offsets[i] < l.offsets[i+1] <= restarts
    ensures KeyBefore(items, i + 1) == items[i].key
  {
    OffsetsGrow(data, items, l, i, i + 1);
    if i + 1 < |items| {
      OffsetsGrow(data, items, l, i + 1, |items|);
    }
  }

  lemma OffsetsOrder(data: Bytes, restarts: nat, numRestarts: nat, items: seq<Item>, l: Layout, less: Comparator,
                     i: nat, p: nat)
    requires BlockOk(data, restarts, numRestarts, items, l, less) && i < p <= |items|
    ensures |l.offsets| == |items| + 1 && (l.offsets[i+1] < l.offsets[p] <==> i + 1 < p)
  {
    if i + 1 < p {
      OffsetsGrow(data, items, l, i + 1, p);
    }
  }

  lemma FirstRestart(data: Bytes, restarts: nat, numRestarts: nat, items: seq<Item>, l: Layout, less: Comparator, p: nat)
    requires BlockOk(data, restarts, numRestarts, items, l, less) && p <= |items|
    ensures |l.offsets| == |items| + 1 && restarts + 4 <= |data|
    ensures RestartPoint(data, restarts, 0) >= l.offsets[p] ==> p == 0
  {
    RestartFacts(data, restarts, numRestarts, items, l, less, 0);
    if p > 0 {
      OffsetsGrow(data, items, l, 0, p);
    }
  }

  lemma RestartBefore(data: Bytes, restarts: nat, numRestarts: nat, items: seq<Item>, l: Layout, less: Comparator,
                      r: nat, p: nat)
    requires BlockOk(data, restarts, numRestarts, items, l, less) && r < numRestarts && p <= |items|
    ensures |l.offsets| == |items| + 1 && |l.restarts| == numRestarts && restarts + 4 * r + 4 <= |data|
    ensures RestartPoint(data, restarts, r) < l.offsets[p] ==> l.restarts[r] < p
  {
    RestartFacts(data, restarts, numRestarts, items, l, less, r);
    if p < l.restarts[r] {
      OffsetsGrow(data, items, l, p, l.restarts[r]);
    }
  }

  lemma ReadyFinds(data: Bytes, restarts: nat, numRestarts: nat, items: seq<Item>, l: Layout, less: Comparator,
                   i: nat, key: Bytes)
    requires BlockOk(data, restarts, numRestarts, items, l, less) && i <= |items|
    requires |l.offsets| == |items| + 1 && |l.shared| == |items|
    requires i < |items| ==> key == KeyBefore(items, i) || l.shared[i] == 0
    ensures restarts == l.offsets[|items|] <= |data|
    ensures i < |items| ==>
              && l.offsets[i] < l.offsets[i+1] <= restarts && |items[i].value| <= l.offsets[i+1]
              && ParseAt(data, l.offsets[i], restarts, key)
                 == Some(Parsed(items[i].key, l.offsets[i+1] - |items[i].value|, |items[i].value|))
              && data[l.offsets[i+1] - |items[i].value|..l.offsets[i+1]] == items[i].value
  {
    if i < |items| {
      ParseItem(data, items, l, i, key);
    }
  }
}
