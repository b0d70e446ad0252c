/** table/filter_block.cc: one filter for every 2 KB of the table file. */
module FilterBlocks {
  import opened Keys
  import opened Coding
  import opened Bloom

  const FILTER_BASE_LG: nat := 11
  const FILTER_BASE: nat := 2048

  // ----- The reader -----

  /** What the filter block says of a key with hash value `h` in the data block at `blockOffset`. */
  predicate BlockMayMatch(c: Bytes, blockOffset: nat, h: Word) {
    var n := |c|;
    n < 5 ||
    var arrayOffset := DecodeFixed32(c[n-5..]);
    arrayOffset > n - 5 ||
    var index := Shifted(blockOffset, c[n-1] as nat);
    index >= (n - 5 - arrayOffset) / 4 ||
    var start, limit := DecodeFixed32(c[arrayOffset+4*index..]), DecodeFixed32(c[arrayOffset+4*index+4..]);
    if start <= limit <= arrayOffset then MayMatch(c[start..limit], h) else start != limit
  }

  /** n >> k */
  function Shifted(n: nat, k: nat): nat {
    if k == 0 then n else Shifted(n / 2, k - 1)
  }

  lemma ShiftedTwice(n: nat, k: nat)
    ensures Shifted(n, k + 2) == Shifted(n / 4, k)
  {
    assert Shifted(n, k + 2) == Shifted(n / 2, k + 1);
  }

  lemma ShiftedByBase(n: nat)
    ensures Shifted(n, FILTER_BASE_LG) == n / FILTER_BASE
  {
    hide Shifted;
    ShiftedTwice(n, 9);
    ShiftedTwice(n / 4, 7);
    ShiftedTwice(n / 4 / 4, 5);
    ShiftedTwice(n / 4 / 4 / 4, 3);
    ShiftedTwice(n / 4 / 4 / 4 / 4, 1);
    ShiftedOnce(n / 4 / 4 / 4 / 4 / 4);
    DivideStepwise(n);
  }

  lemma ShiftedOnce(n: nat)
    ensures Shifted(n, 1) == n / 2
  {
  }

  lemma DivideStepwise(n: nat)
    ensures n / 4 / 4 / 4 / 4 / 4 / 2 == n / 2048
  {
  }

  class FilterBlockReader {
    const policy: BloomFilterPolicy
    const contents: Bytes
    var arrayOffset: nat
    var num: nat
    var baseLg: nat

    ghost predicate Valid()
      reads this
    {
      var n := |contents|;
      if n < 5 || DecodeFixed32(contents[n-5..]) > n - 5 then num == 0
      else arrayOffset == DecodeFixed32(contents[n-5..]) && num == (n - 5 - arrayOffset) / 4
           && baseLg == contents[n-1] as nat
    }

    constructor (policy: BloomFilterPolicy, contents: Bytes)
      ensures Valid() && this.contents == contents && this.policy == policy
    {
      this.policy, this.contents := policy, contents;
      arrayOffset, num, baseLg := 0, 0, 0;
      new;
      hide DecodeFixed32;
      var n := |contents|;
      if n < 5 {
        return;
      }
      baseLg := contents[n-1] as nat;
      var lastWord := DecodeFixed32(contents[n-5..]);
      if lastWord > n - 5 {
        return;
      }
      arrayOffset := lastWord;
      num := (n - 5 - lastWord) / 4;
    }

    method KeyMayMatch(blockOffset: nat, key: Bytes) returns (r: bool)
      requires Valid()
      ensures r == BlockMayMatch(contents, blockOffset, policy.hash(key))
    {
      hide DecodeFixed32, MayMatch;
      var index := Shifted(blockOffset, baseLg);
      if index < num {
        var start := DecodeFixed32(contents[arrayOffset+4*index..]);
        var limit := DecodeFixed32(contents[arrayOffset+4*index+4..]);
        if start <= limit && limit <= arrayOffset {
          r := policy.KeyMayMatch(key, contents[start..limit]);
          return;
        } else if start == limit {
          return false;
        }
      }
      return true;
    }
  }

  // ----- The builder -----

  function Flatten(keys: seq<Bytes>): Bytes {
    if keys == [] then [] else Flatten(keys[..|keys|-1]) + keys[|keys|-1]
  }

  /** Key `i` starts where the ones before it end. */
  predicate StartsOk(keys: seq<Bytes>, start: seq<nat>) {
    |start| == |keys| && forall i :: 0 <= i < |keys| ==> start[i] == |Flatten(keys[..i])|
  }

  lemma {:induction false} FlattenPrefix(keys: seq<Bytes>, i: nat)
    requires i < |keys|
    ensures |Flatten(keys[..i])| <= |Flatten(keys[..i+1])| <= |Flatten(keys)|
    ensures Flatten(keys)[|Flatten(keys[..i])|..|Flatten(keys[..i+1])|] == keys[i]
  {
    if i == |keys| - 1 {
      assert keys[..i+1] == keys;
    } else {
      var init := keys[..|keys|-1];
      FlattenPrefix(init, i);
      assert init[..i] == keys[..i] && init[..i+1] == keys[..i+1];
    }
  }

  /** The limits of the filters lie in the result in order, and each filter matches its keys. */
  ghost predicate FiltersOk(result: Bytes, offsets: seq<nat>, done: seq<seq<Bytes>>, policy: BloomFilterPolicy) {
    && |offsets| == |done|
    && forall i :: 0 <= i < |offsets| ==>
         && offsets[i] <= FilterEnd(result, offsets, i) <= |result|
         && (forall k :: k in done[i] ==> MayMatch(result[offsets[i]..FilterEnd(result, offsets, i)], policy.hash(k)))
         && AnswersFor(result[offsets[i]..FilterEnd(result, offsets, i)], done[i], policy)
  }

  /** There is no filter for no keys; any other answers yes exactly for what shares all its probes with the keys. */
  ghost predicate AnswersFor(filter: Bytes, keys: seq<Bytes>, policy: BloomFilterPolicy) {
    if keys == [] then filter == []
    else forall h :: MayMatch(filter, h)
                     <==> SharesProbes(h, policy.Hashes(keys), 8 * policy.FilterSize(|keys|), policy.k)
  }

  function FilterEnd(result: Bytes, offsets: seq<nat>, i: nat): nat
    requires i < |offsets|
  {
    if i + 1 < |offsets| then offsets[i+1] else |result|
  }

  /** The key was added for a block whose offset leads to filter `i`. */
  ghost predicate AddedAt(added: set<(nat, Bytes)>, i: nat, key: Bytes) {
    exists a :: a in added && a.0 / FILTER_BASE == i && a.1 == key
  }

  lemma MoreAdded(added: set<(nat, Bytes)>, a: (nat, Bytes))
    ensures forall i: nat, key :: AddedAt(added, i, key) ==> AddedAt(added + {a}, i, key)
    ensures AddedAt(added + {a}, a.0 / FILTER_BASE, a.1)
  {
    var more := added + {a};
    assert a in more && a.0 / FILTER_BASE == a.0 / FILTER_BASE;
    forall i: nat, key | AddedAt(added, i, key) ensures AddedAt(more, i, key) {
      var b :| b in added && b.0 / FILTER_BASE == i && b.1 == key;
      assert b in more;
    }
  }

  lemma KeysAreAdded(added: set<(nat, Bytes)>, done: seq<seq<Bytes>>)
    requires Placed(added, done) && forall i: nat, key :: i < |done| && key in done[i] ==> AddedAt(added, i, key)
    ensures forall i: nat, key :: i < |done| ==> (key in done[i] <==> AddedAt(added, i, key))
  {
  }

  class FilterBlockBuilder {
    const policy: BloomFilterPolicy
    var keys: Bytes
    var start: seq<nat>
    var result: Bytes
    var filterOffsets: seq<nat>
    /** The keys of the filter under construction, and those of the finished ones. */
    ghost var pending: seq<Bytes>
    ghost var done: seq<seq<Bytes>>
    /** The offset of the last StartBlock, and every key added with the offset current then. */
    ghost var at: nat
    ghost var added: set<(nat, Bytes)>

    ghost predicate Valid()
      reads this
    {
      && 1 <= policy.k <= 30
      && StartsOk(pending, start) && keys == Flatten(pending)
      && FiltersOk(result, filterOffsets, done, policy)
      && (forall a :: a in added ==> a.1 in KeysAt(a.0 / FILTER_BASE))
      && (forall i: nat, key :: key in KeysAt(i) ==> AddedAt(added, i, key))
      && at / FILTER_BASE == |done| == |filterOffsets|
    }

    ghost function KeysAt(index: nat): seq<Bytes>
      reads this
    {
      if index < |done| then done[index] else if index == |done| then pending else []
    }

    constructor (policy: BloomFilterPolicy)
      requires 1 <= policy.k <= 30
      ensures Valid() && added == {} && at == 0 && this.policy == policy && filterOffsets == []
    {
      this.policy := policy;
      keys, start, result, filterOffsets := [], [], [], [];
      pending, done, at, added := [], [], 0, {};
    }

    /** Block offsets do not decrease. */
    method StartBlock(blockOffset: nat)
      requires Valid() && blockOffset / FILTER_BASE >= |filterOffsets|
      modifies this
      ensures Valid() && at == blockOffset && added == old(added) && |filterOffsets| == blockOffset / FILTER_BASE
    {
      hide Flatten, StartsOk, FiltersOk;
      var filterIndex := blockOffset / FILTER_BASE;
      assert |filterOffsets| == |done| by { SameLength(result, filterOffsets, done, policy); }
      while filterIndex > |filterOffsets|
        invariant Valid() && added == old(added) && |filterOffsets| == |done| <= filterIndex
      {
        GenerateFilter();
        at := at + FILTER_BASE;
      }
      at := blockOffset;
    }

    method AddKey(key: Bytes)
      requires Valid()
      modifies this
      ensures Valid() && at == old(at) && added == old(added) + {(at, key)} && filterOffsets == old(filterOffsets)
    {
      hide FiltersOk, StartsOk, AddedAt;
      OneMoreKey(pending, start, key);
      start := start + [|keys|];
      keys := keys + key;
      MoreAdded(added, (at, key));
      pending := pending + [key];
      added := added + {(at, key)};
    }

    /** Moves on to the next filter; `at` is left behind. */
    method GenerateFilter()
      requires Valid()
      modifies this
      ensures 1 <= policy.k <= 30 && StartsOk(pending, start) && keys == Flatten(pending)
      ensures FiltersOk(result, filterOffsets, done, policy)
      ensures at == old(at) && added == old(added) && pending == [] && done == old(done) + [old(pending)]
      ensures |filterOffsets| == |done|
    {
      hide FiltersOk, StartsOk;
      var numKeys := |start|;
      StartCount(pending, start);
      SameLength(result, filterOffsets, done, policy);
      if numKeys == 0 {
        NoKeys(pending, start);
        EmptyFilter(result, filterOffsets, done, policy);
        filterOffsets := filterOffsets + [|result|];
        done := done + [pending];
        return;
      }
      ghost var starts := start;
      start := start + [|keys|];
      assert start[..numKeys] == starts;
      var tmpKeys: seq<Bytes> := [];
      var i := 0;
      while i < numKeys
        modifies {}
        invariant 0 <= i <= numKeys && tmpKeys == pending[..i]
      {
        KeyBounds(pending, start[..numKeys], i);
        var base, limit := start[i], start[i+1];
        tmpKeys := tmpKeys + [keys[base..limit]];
        i := i + 1;
      }
      assert tmpKeys == pending;
      ghost var before := result;
      var created := policy.CreateFilter(tmpKeys, result);
      NewFilter(before, created, filterOffsets, done, pending, policy);
      filterOffsets := filterOffsets + [|result|];
      result := created;
      done := done + [pending];
      keys, start, pending := [], [], [];
    }

    /** The filters, their offsets, where these start, and the encoding parameter.  No key added is denied in the
        block it was added for, as long as the whole fits 32-bit offsets. */
    method Finish() returns (contents: Bytes)
      requires Valid()
      modifies this
      ensures |contents| < 0x1_0000_0000 ==> forall a :: a in added ==> BlockMayMatch(contents, a.0, policy.hash(a.1))
      ensures |contents| < 0x1_0000_0000 ==> AnswersExactly(contents, added, policy, |filterOffsets|)
      ensures added == old(added)
    {
      hide FiltersOk, StartsOk, BlockMayMatch, EncodeFixed32, AnswersExactly, AddedAt;
      if |start| > 0 {
        GenerateFilter();
      } else {
        NoKeys(pending, start);
        SameLength(result, filterOffsets, done, policy);
      }
      assert Placed(added, done);
      KeysAreAdded(added, done);
      ghost var words := Words(filterOffsets);
      ghost var filters := result;
      var arrayOffset := |result|;
      var i := 0;
      while i < |filterOffsets|
        modifies `result
        invariant 0 <= i <= |filterOffsets| && result == filters + Fixed32Array(words[..i])
      {
        assert words[..i+1][..i] == words[..i];
        result := result + EncodeFixed32(filterOffsets[i] % 0x1_0000_0000);
        i := i + 1;
      }
      assert words[..i] == words;
      result := result + EncodeFixed32(arrayOffset % 0x1_0000_0000);
      result := result + [FILTER_BASE_LG as byte];
      contents := result;
      AllMatch(filters, filterOffsets, done, policy, added);
      AllAnswerExactly(filters, filterOffsets, done, policy, added);
    }
  }

  /** 32-bit offsets. */
  function Words(offsets: seq<nat>): (words: seq<Word>)
    ensures |words| == |offsets| && forall i :: 0 <= i < |words| ==> words[i] == offsets[i] % 0x1_0000_0000
  {
    seq(|offsets|, i requires 0 <= i < |offsets| => offsets[i] % 0x1_0000_0000)
  }

  function FilterBytes(filters: Bytes, offsets: seq<nat>): Bytes {
    filters + Fixed32Array(Words(offsets)) + EncodeFixed32(|filters| % 0x1_0000_0000) + [FILTER_BASE_LG as byte]
  }

  /** The words at the end of the block. */
  lemma BlockParts(filters: Bytes, offsets: seq<nat>)
    requires |FilterBytes(filters, offsets)| < 0x1_0000_0000
    ensures var c, base := FilterBytes(filters, offsets), |filters|;
      && filters <= c && |c| == base + 4 * |offsets| + 5 && c[|c|-1] == FILTER_BASE_LG as byte
      && DecodeFixed32(c[|c|-5..]) == base
  {
    hide EncodeFixed32, DecodeFixed32, Fixed32Array;
    var c, last, lg := FilterBytes(filters, offsets), EncodeFixed32(|filters|), [FILTER_BASE_LG as byte];
    assert c[|c|-5..] == last + lg;
    Fixed32RoundTrip(|filters|, lg);
  }

  /** The limit after the last filter's start is where the offsets themselves start. */
  lemma OffsetAt(filters: Bytes, offsets: seq<nat>, i: nat)
    requires |FilterBytes(filters, offsets)| < 0x1_0000_0000 && i <= |offsets|
    requires i < |offsets| ==> offsets[i] <= |filters|
    ensures var c, at := FilterBytes(filters, offsets), |filters| + 4 * i;
      && at + 5 <= |c|
      && DecodeFixed32(c[at..]) == if i < |offsets| then offsets[i] else |filters|
  {
    hide EncodeFixed32, DecodeFixed32, Fixed32Array;
    var c, words, tail := FilterBytes(filters, offsets), Words(offsets),
                          EncodeFixed32(|filters|) + [FILTER_BASE_LG as byte];
    assert c == filters + Fixed32Array(words) + tail;
    var rest := Fixed32Array(words) + tail;
    assert c[|filters| + 4 * i..] == rest[4 * i..];
    if i < |offsets| {
      Fixed32ArrayAt(words, tail, i);
    } else {
      assert rest[4 * i..] == tail;
      Fixed32RoundTrip(|filters|, [FILTER_BASE_LG as byte]);
    }
  }

  /** The answer for a block is that of the filter its offset leads to. */
  lemma BlockIsFilter(filters: Bytes, offsets: seq<nat>, done: seq<seq<Bytes>>, policy: BloomFilterPolicy, blockOffset: nat,
                      h: Word)
    requires FiltersOk(filters, offsets, done, policy) && |FilterBytes(filters, offsets)| < 0x1_0000_0000
    requires blockOffset / FILTER_BASE < |done|
    ensures var i := blockOffset / FILTER_BASE;
      && i < |offsets| && offsets[i] <= FilterEnd(filters, offsets, i) <= |filters|
      && BlockMayMatch(FilterBytes(filters, offsets), blockOffset, h)
         == MayMatch(filters[offsets[i]..FilterEnd(filters, offsets, i)], h)
      && AnswersFor(filters[offsets[i]..FilterEnd(filters, offsets, i)], done[i], policy)
  {
    hide FilterBytes, DecodeFixed32, MayMatch, Shifted, AnswersFor;
    var c, index := FilterBytes(filters, offsets), blockOffset / FILTER_BASE;
    BlockParts(filters, offsets);
    ShiftedByBase(blockOffset);
    var end := FilterEnd(filters, offsets, index);
    assert index + 1 < |offsets| ==> offsets[index+1] <= FilterEnd(filters, offsets, index + 1);
    OffsetAt(filters, offsets, index);
    OffsetAt(filters, offsets, index + 1);
    assert c[offsets[index]..end] == filters[offsets[index]..end];
  }

  lemma BlockAnswers(filters: Bytes, offsets: seq<nat>, done: seq<seq<Bytes>>, policy: BloomFilterPolicy, blockOffset: nat,
                     h: Word)
    requires FiltersOk(filters, offsets, done, policy) && |FilterBytes(filters, offsets)| < 0x1_0000_0000
    requires blockOffset / FILTER_BASE < |done|
    ensures var keys := done[blockOffset / FILTER_BASE];
      BlockMayMatch(FilterBytes(filters, offsets), blockOffset, h)
      <==> keys != [] && SharesProbes(h, policy.Hashes(keys), 8 * policy.FilterSize(|keys|), policy.k)
  {
    BlockIsFilter(filters, offsets, done, policy, blockOffset, h);
    hide FilterBytes, BlockMayMatch, MayMatch, SharesProbes, FiltersOk;
    NothingMatches(h);
  }

  /** The filter found for a key's block is the one made of its keys. */
  lemma Matches(filters: Bytes, offsets: seq<nat>, done: seq<seq<Bytes>>, policy: BloomFilterPolicy, blockOffset: nat, key: Bytes)
    requires FiltersOk(filters, offsets, done, policy) && |FilterBytes(filters, offsets)| < 0x1_0000_0000
    requires blockOffset / FILTER_BASE < |done| && key in done[blockOffset / FILTER_BASE]
    ensures BlockMayMatch(FilterBytes(filters, offsets), blockOffset, policy.hash(key))
  {
    BlockIsFilter(filters, offsets, done, policy, blockOffset, policy.hash(key));
    hide FilterBytes, BlockMayMatch, MayMatch, AnswersFor;
  }

  lemma NothingMatches(h: Word)
    ensures !MayMatch([], h)
  {
  }

  /** A finished filter block answers yes for a data block exactly when some keys were added for the 2 KB in which it
      begins, and the key shares all its probes with them. */
  ghost predicate AnswersExactly(contents: Bytes, added: set<(nat, Bytes)>, policy: BloomFilterPolicy, limit: nat) {
    forall i: nat :: i < limit ==> AnswersAt(contents, added, policy, i)
  }

  ghost predicate AnswersAt(contents: Bytes, added: set<(nat, Bytes)>, policy: BloomFilterPolicy, i: nat) {
    exists keys: seq<Bytes> ::
      && (forall key :: key in keys <==> AddedAt(added, i, key))
      && forall blockOffset: nat, h: Word :: blockOffset / FILTER_BASE == i ==>
           (BlockMayMatch(contents, blockOffset, h)
            <==> keys != [] && SharesProbes(h, policy.Hashes(keys), 8 * policy.FilterSize(|keys|), policy.k))
  }

  lemma AllAnswerExactly(filters: Bytes, offsets: seq<nat>, done: seq<seq<Bytes>>, policy: BloomFilterPolicy,
                         added: set<(nat, Bytes)>)
    requires FiltersOk(filters, offsets, done, policy)
    requires forall i: nat, key :: i < |done| ==> (key in done[i] <==> AddedAt(added, i, key))
    ensures var c := FilterBytes(filters, offsets);
      |c| < 0x1_0000_0000 ==> AnswersExactly(c, added, policy, |done|)
  {
    hide FiltersOk, BlockMayMatch, FilterBytes, SharesProbes, AddedAt;
    var c := FilterBytes(filters, offsets);
    if |c| < 0x1_0000_0000 {
      forall i: nat | i < |done| ensures AnswersAt(c, added, policy, i) {
        forall blockOffset: nat, h: Word | blockOffset / FILTER_BASE == i
          ensures BlockMayMatch(c, blockOffset, h)
             <==> done[i] != [] && SharesProbes(h, policy.Hashes(done[i]), 8 * policy.FilterSize(|done[i]|), policy.k)
        {
          BlockAnswers(filters, offsets, done, policy, blockOffset, h);
        }
      }
    }
  }

  /** Each key is among those of its block's filter. */
  ghost predicate Placed(added: set<(nat, Bytes)>, done: seq<seq<Bytes>>) {
    forall a :: a in added ==> a.0 / FILTER_BASE < |done| && a.1 in done[a.0 / FILTER_BASE]
  }

  lemma AllMatch(filters: Bytes, offsets: seq<nat>, done: seq<seq<Bytes>>, policy: BloomFilterPolicy, added: set<(nat, Bytes)>)
    requires FiltersOk(filters, offsets, done, policy) && Placed(added, done)
    ensures var c := FilterBytes(filters, offsets);
      |c| < 0x1_0000_0000 ==> forall a :: a in added ==> BlockMayMatch(c, a.0, policy.hash(a.1))
  {
    hide FiltersOk, BlockMayMatch, FilterBytes;
    if |FilterBytes(filters, offsets)| < 0x1_0000_0000 {
      forall a | a in added ensures BlockMayMatch(FilterBytes(filters, offsets), a.0, policy.hash(a.1)) {
        Matches(filters, offsets, done, policy, a.0, a.1);
      }
    }
  }

  lemma StartCount(keys: seq<Bytes>, start: seq<nat>)
    requires StartsOk(keys, start)
    ensures |start| == |keys| && StartsOk([], [])
  {
  }

  lemma NoKeys(keys: seq<Bytes>, start: seq<nat>)
    requires StartsOk(keys, start) && |start| == 0
    ensures keys == []
  {
  }

  lemma KeyBounds(keys: seq<Bytes>, start: seq<nat>, i: nat)
    requires StartsOk(keys, start) && i < |keys|
    ensures var all := start + [|Flatten(keys)|];
      all[i] <= all[i+1] <= |Flatten(keys)| && Flatten(keys)[all[i]..all[i+1]] == keys[i]
  {
    FlattenPrefix(keys, i);
    assert i + 1 == |keys| ==> keys[..i+1] == keys;
  }

  lemma EmptyFilter(result: Bytes, offsets: seq<nat>, done: seq<seq<Bytes>>, policy: BloomFilterPolicy)
    requires FiltersOk(result, offsets, done, policy)
    ensures FiltersOk(result, offsets + [|result|], done + [[]], policy)
  {
    hide MayMatch;
    NewFilter(result, result, offsets, done, [], policy);
  }

  lemma NewFilter(before: Bytes, after: Bytes, offsets: seq<nat>, done: seq<seq<Bytes>>, keys: seq<Bytes>,
                  policy: BloomFilterPolicy)
    requires FiltersOk(before, offsets, done, policy) && before <= after
    requires forall k :: k in keys ==> MayMatch(after[|before|..], policy.hash(k))
    requires AnswersFor(after[|before|..], keys, policy)
    ensures FiltersOk(after, offsets + [|before|], done + [keys], policy)
  {
    hide MayMatch, AnswersFor;
    var more, all := offsets + [|before|], done + [keys];
    forall i | 0 <= i < |more|
      ensures more[i] <= FilterEnd(after, more, i) <= |after|
      ensures forall k :: k in all[i] ==> MayMatch(after[more[i]..FilterEnd(after, more, i)], policy.hash(k))
      ensures AnswersFor(after[more[i]..FilterEnd(after, more, i)], all[i], policy)
    {
      if i < |offsets| {
        assert FilterEnd(after, more, i) == FilterEnd(before, offsets, i);
        assert after[more[i]..FilterEnd(after, more, i)] == before[offsets[i]..FilterEnd(before, offsets, i)];
      } else {
        assert after[|before|..|after|] == after[|before|..];
      }
    }
  }

  lemma SameLength(result: Bytes, offsets: seq<nat>, done: seq<seq<Bytes>>, policy: BloomFilterPolicy)
    requires FiltersOk(result, offsets, done, policy)
    ensures |offsets| == |done|
  {
  }

  lemma OneMoreKey(keys: seq<Bytes>, start: seq<nat>, key: Bytes)
    requires StartsOk(keys, start)
    ensures StartsOk(keys + [key], start + [|Flatten(keys)|]) && Flatten(keys + [key]) == Flatten(keys) + key
  {
    assert (keys + [key])[..|keys|] == keys;
    forall i | 0 <= i < |keys| ensures (keys + [key])[..i] == keys[..i] {
    }
  }
}
