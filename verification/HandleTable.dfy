/** The cache's hash table (util/cache.cc, HandleTable): buckets of chained entries, refining a map. */
module HandleTables {
  import opened Keys
  import opened Coding
  import opened Rings

  /** A cache entry.  The deleter's argument, its value, plays no part in the cache's own work. */
  class LRUHandle {
    const key: Bytes
    const hash: Word
    const value: Bytes
    const charge: nat
    var refs: nat
    var next: LRUHandle
    var prev: LRUHandle
    var nextHash: LRUHandle?

    constructor (key: Bytes, hash: Word, value: Bytes, charge: nat, refs: nat)
      ensures this.key == key && this.hash == hash && this.value == value && this.charge == charge && this.refs == refs
      ensures next == this == prev && nextHash == null
    {
      this.key, this.hash, this.value, this.charge, this.refs := key, hash, value, charge, refs;
      next, prev, nextHash := this, this, null;
    }

    predicate Matches(key: Bytes, hash: Word) { this.hash == hash && this.key == key }
  }

  // ----- Chains as values -----

  function Link(chain: seq<LRUHandle>, i: nat): LRUHandle? { if i < |chain| then chain[i] else null }

  ghost function AllOf(chains: seq<seq<LRUHandle>>): set<LRUHandle> {
    set b, i | 0 <= b < |chains| && 0 <= i < |chains[b]| :: chains[b][i]
  }

  /** No entry stands in two places. */
  ghost predicate Apart(chains: seq<seq<LRUHandle>>) {
    forall b, c, i, j :: (0 <= b < |chains| && 0 <= c < |chains| && 0 <= i < |chains[b]| && 0 <= j < |chains[c]|
                          && chains[b][i] == chains[c][j]) ==> b == c && i == j
  }

  /** Each entry is in the bucket of its hash.  The number of buckets is a power of two, so the source's bit mask is a
      remainder. */
  ghost predicate Placed(chains: seq<seq<LRUHandle>>) {
    forall b, i :: 0 <= b < |chains| && 0 <= i < |chains[b]| ==> chains[b][i].hash % |chains| == b
  }

  ghost predicate DistinctKeys(handles: set<LRUHandle>) {
    forall a, b :: a in handles && b in handles && a.Matches(b.key, b.hash) ==> a == b
  }

  function Total(chains: seq<seq<LRUHandle>>): nat {
    if chains == [] then 0 else Total(chains[..|chains|-1]) + |chains[|chains|-1]|
  }

  lemma {:induction false} TotalUpdated(chains: seq<seq<LRUHandle>>, b: nat, chain: seq<LRUHandle>)
    requires b < |chains|
    ensures Total(chains[b := chain]) == Total(chains) - |chains[b]| + |chain|
    ensures Total(chains) >= |chains[b]|
  {
    var init, more := chains[..|chains|-1], chains[b := chain];
    if b < |chains| - 1 {
      assert more[..|more|-1] == init[b := chain];
      TotalUpdated(init, b, chain);
    } else {
      assert more[..|more|-1] == init;
    }
  }

  lemma {:induction false} TotalAppended(a: seq<seq<LRUHandle>>, b: seq<seq<LRUHandle>>)
    ensures Total(a + b) == Total(a) + Total(b)
  {
    if b == [] {
      assert a + b == a;
    } else {
      assert (a + b)[..|a + b|-1] == a + b[..|b|-1];
      TotalAppended(a, b[..|b|-1]);
    }
  }

  lemma {:induction false} TotalOfEmpty(chains: seq<seq<LRUHandle>>)
    requires forall b :: 0 <= b < |chains| ==> chains[b] == []
    ensures Total(chains) == 0 && AllOf(chains) == {} && Apart(chains)
  {
    if chains != [] {
      TotalOfEmpty(chains[..|chains|-1]);
    }
  }

  /** Moving the head of one chain to the head of another. */
  function Moved(chains: seq<seq<LRUHandle>>, from: nat, onto: nat): seq<seq<LRUHandle>>
    requires from < |chains| && onto < |chains| && from != onto && chains[from] != []
  {
    chains[from := chains[from][1..]][onto := [chains[from][0]] + chains[onto]]
  }

  /** Where the entry at a place came from. */
  function OriginChain(from: nat, onto: nat, b: nat, i: nat): nat { if b == onto && i == 0 then from else b }

  function OriginPlace(from: nat, onto: nat, b: nat, i: nat): int {
    if b == onto then (if i == 0 then 0 else i - 1) else if b == from then i + 1 else i
  }

  lemma MovedAt(chains: seq<seq<LRUHandle>>, from: nat, onto: nat, b: nat, i: nat)
    requires from < |chains| && onto < |chains| && from != onto && chains[from] != []
    requires b < |chains| && i < |Moved(chains, from, onto)[b]|
    ensures OriginPlace(from, onto, b, i) < |chains[OriginChain(from, onto, b, i)]|
    ensures Moved(chains, from, onto)[b][i] == chains[OriginChain(from, onto, b, i)][OriginPlace(from, onto, b, i)]
  {
  }

  /** And where it went. */
  lemma MovedTo(chains: seq<seq<LRUHandle>>, from: nat, onto: nat, b: nat, i: nat)
    requires from < |chains| && onto < |chains| && from != onto && b < |chains| && i < |chains[b]| && chains[from] != []
    ensures chains[b][i] in AllOf(Moved(chains, from, onto))
  {
    var moved := Moved(chains, from, onto);
    if b == from && i == 0 {
      assert moved[onto][0] == chains[b][i];
    } else if b == from {
      assert moved[b][i-1] == chains[b][i];
    } else if b == onto {
      assert moved[b][i+1] == chains[b][i];
    } else {
      assert moved[b][i] == chains[b][i];
    }
  }

  lemma MovedKeeps(chains: seq<seq<LRUHandle>>, from: nat, onto: nat)
    requires from < |chains| && onto < |chains| && from != onto && chains[from] != [] && Apart(chains)
    ensures Apart(Moved(chains, from, onto)) && AllOf(Moved(chains, from, onto)) == AllOf(chains)
    ensures Total(Moved(chains, from, onto)) == Total(chains)
  {
    hide AllOf;
    TotalUpdated(chains, from, chains[from][1..]);
    TotalUpdated(chains[from := chains[from][1..]], onto, [chains[from][0]] + chains[onto]);
    assert |Moved(chains, from, onto)| == |chains|;
    MovedApart(chains, from, onto, Moved(chains, from, onto));
    MovedAll(chains, from, onto, Moved(chains, from, onto));
  }

  lemma MovedApart(chains: seq<seq<LRUHandle>>, from: nat, onto: nat, moved: seq<seq<LRUHandle>>)
    requires from < |chains| && onto < |chains| && from != onto && chains[from] != [] && Apart(chains)
    requires moved == Moved(chains, from, onto) && |moved| == |chains|
    ensures Apart(moved)
  {
    hide Moved;
    forall b: nat, c: nat, i: nat, j: nat
      | b < |moved| && c < |moved| && i < |moved[b]| && j < |moved[c]| && moved[b][i] == moved[c][j]
      ensures b == c && i == j
    {
      MovedAt(chains, from, onto, b, i);
      MovedAt(chains, from, onto, c, j);
    }
  }

  lemma MovedAll(chains: seq<seq<LRUHandle>>, from: nat, onto: nat, moved: seq<seq<LRUHandle>>)
    requires from < |chains| && onto < |chains| && from != onto && chains[from] != []
    requires moved == Moved(chains, from, onto) && |moved| == |chains|
    ensures AllOf(moved) == AllOf(chains)
  {
    hide Moved;
    forall b: nat, i: nat | b < |moved| && i < |moved[b]| ensures moved[b][i] in AllOf(chains) {
      MovedAt(chains, from, onto, b, i);
    }
    forall b: nat, i: nat | b < |chains| && i < |chains[b]| ensures chains[b][i] in AllOf(moved) {
      MovedTo(chains, from, onto, b, i);
    }
  }

  ghost function SetOf(chain: seq<LRUHandle>): set<LRUHandle> { set h | h in chain }

  /** One chain changes, keeping its entries or gaining one from outside. */
  lemma ChainChanged(chains: seq<seq<LRUHandle>>, b: nat, chain: seq<LRUHandle>)
    requires Apart(chains) && b < |chains| && Distinct(chain)
    requires forall h :: h in chain ==> h in chains[b] || h !in AllOf(chains)
    ensures Apart(chains[b := chain])
    ensures AllOf(chains[b := chain]) == AllOf(chains) - SetOf(chains[b]) + SetOf(chain)
  {
    var more := chains[b := chain];
    forall c: nat, i: nat | c < |more| && c != b && i < |more[c]| ensures more[c][i] !in chains[b] && more[c][i] !in chain {
      assert more[c][i] == chains[c][i] && more[c][i] in AllOf(chains);
    }
    forall h | h in AllOf(chains) - SetOf(chains[b]) ensures h in AllOf(more) {
      var c: nat, i: nat :| c < |chains| && i < |chains[c]| && chains[c][i] == h;
      assert more[c][i] == h;
    }
    forall i | 0 <= i < |chain| ensures chain[i] in AllOf(more) {
      assert more[b][i] == chain[i];
    }
  }

  /** The entry found, or none, gives way to `h`. */
  function Put(chain: seq<LRUHandle>, i: nat, h: LRUHandle): seq<LRUHandle>
    requires i <= |chain|
  {
    chain[..i] + [h] + if i < |chain| then chain[i+1..] else []
  }

  lemma PutKeeps(chains: seq<seq<LRUHandle>>, b: nat, i: nat, h: LRUHandle)
    requires Apart(chains) && Placed(chains) && b < |chains| && i <= |chains[b]| && h !in AllOf(chains) && h.hash % |chains| == b
    ensures var more := chains[b := Put(chains[b], i, h)];
      && Apart(more) && Placed(more)
      && AllOf(more) == AllOf(chains) - (if i < |chains[b]| then {chains[b][i]} else {}) + {h}
      && Total(more) == Total(chains) + if i < |chains[b]| then 0 else 1
  {
    hide Total, AllOf, Apart;
    var chain, put := chains[b], Put(chains[b], i, h);
    ChainIn(chains, b);
    PutMembers(chain, i, h);
    ChainChanged(chains, b, put);
    TotalUpdated(chains, b, put);
  }

  lemma ChainIn(chains: seq<seq<LRUHandle>>, b: nat)
    requires Apart(chains) && b < |chains|
    ensures SetOf(chains[b]) <= AllOf(chains) && Distinct(chains[b])
  {
  }

  lemma PutMembers(chain: seq<LRUHandle>, i: nat, h: LRUHandle)
    requires Distinct(chain) && i <= |chain| && h !in chain
    ensures var put := Put(chain, i, h);
      && Distinct(put) && |put| == |chain| + (if i < |chain| then 0 else 1)
      && SetOf(put) == SetOf(chain) - (if i < |chain| then {chain[i]} else {}) + {h}
  {
    var put := Put(chain, i, h);
    assert forall k :: 0 <= k < |put| && k != i ==> put[k] == chain[k];
    forall e | e in chain && (i < |chain| ==> e != chain[i]) ensures e in put {
      var k :| 0 <= k < |chain| && chain[k] == e;
      assert put[k] == e;
    }
    assert put[i] == h;
  }

  lemma RemoveKeeps(chains: seq<seq<LRUHandle>>, b: nat, i: nat)
    requires Apart(chains) && Placed(chains) && b < |chains| && i < |chains[b]|
    ensures var fewer := chains[b := Without(chains[b], i)];
      && Apart(fewer) && Placed(fewer)
      && AllOf(fewer) == AllOf(chains) - {chains[b][i]} && Total(fewer) == Total(chains) - 1
  {
    var chain := chains[b];
    WithoutDistinct(chain, i);
    ChainChanged(chains, b, Without(chain, i));
    TotalUpdated(chains, b, Without(chain, i));
    assert forall k :: 0 <= k < |chain| - 1 ==> Without(chain, i)[k] == chain[if k < i then k else k + 1];
    assert SetOf(Without(chain, i)) == SetOf(chain) - {chain[i]};
    assert SetOf(chain) <= AllOf(chains);
  }

  lemma EmptyAppended(chains: seq<seq<LRUHandle>>, empty: seq<seq<LRUHandle>>)
    requires Apart(chains) && forall b :: 0 <= b < |empty| ==> empty[b] == []
    ensures Apart(chains + empty) && AllOf(chains + empty) == AllOf(chains) && Total(chains + empty) == Total(chains)
  {
    TotalAppended(chains, empty);
    TotalOfEmpty(empty);
    forall b: nat, i: nat | b < |chains| && i < |chains[b]| ensures chains[b][i] in AllOf(chains + empty) {
      assert (chains + empty)[b][i] == chains[b][i];
    }
  }

  lemma EmptyDropped(chains: seq<seq<LRUHandle>>, n: nat)
    requires Apart(chains) && n <= |chains| && forall b :: 0 <= b < n ==> chains[b] == []
    ensures Apart(chains[n..]) && AllOf(chains[n..]) == AllOf(chains) && Total(chains[n..]) == Total(chains)
  {
    hide Apart, AllOf;
    assert chains == chains[..n] + chains[n..];
    TotalAppended(chains[..n], chains[n..]);
    TotalOfEmpty(chains[..n]);
    TailApart(chains, n);
    TailAll(chains, n);
  }

  lemma TailApart(chains: seq<seq<LRUHandle>>, n: nat)
    requires Apart(chains) && n <= |chains|
    ensures Apart(chains[n..])
  {
    var tail := chains[n..];
    forall b, c, i, j | 0 <= b < |tail| && 0 <= c < |tail| && 0 <= i < |tail[b]| && 0 <= j < |tail[c]|
                        && tail[b][i] == tail[c][j]
      ensures b == c && i == j
    {
      assert chains[n+b][i] == chains[n+c][j];
    }
  }

  lemma TailAll(chains: seq<seq<LRUHandle>>, n: nat)
    requires n <= |chains| && forall b :: 0 <= b < n ==> chains[b] == []
    ensures AllOf(chains[n..]) == AllOf(chains)
  {
    forall b: nat, i: nat | b < |chains| && i < |chains[b]| ensures chains[b][i] in AllOf(chains[n..]) {
      assert chains[n..][b-n][i] == chains[b][i];
    }
  }

  /** Every entry points to the next one of its chain. */
  ghost predicate NextsOk(chains: seq<seq<LRUHandle>>)
    reads AllOf(chains)`nextHash
  {
    forall b, i :: 0 <= b < |chains| && 0 <= i < |chains[b]| ==> chains[b][i].nextHash == Link(chains[b], i + 1)
  }

  /** The buckets of `list` point to the chains from number `n` on. */
  ghost predicate SlotsOk(list: array<LRUHandle?>, chains: seq<seq<LRUHandle>>, n: nat)
    reads list
  {
    |chains| == n + list.Length && forall b :: 0 <= b < list.Length ==> list[b] == Link(chains[n+b], 0)
  }

  lemma MovedShape(chains: seq<seq<LRUHandle>>, from: nat, onto: nat)
    requires from < |chains| && onto < |chains| && from != onto && chains[from] != []
    ensures var moved := Moved(chains, from, onto);
      && |moved| == |chains| && moved[from] == chains[from][1..] && moved[onto] == [chains[from][0]] + chains[onto]
      && forall b :: 0 <= b < |chains| && b != from && b != onto ==> moved[b] == chains[b]
  {
  }

  lemma HeadIsApart(chains: seq<seq<LRUHandle>>, from: nat)
    requires Apart(chains) && from < |chains| && chains[from] != []
    ensures forall b, i :: 0 <= b < |chains| && 0 <= i < |chains[b]| && (b != from || i > 0)
                           ==> chains[b][i] != chains[from][0]
  {
  }

  /** Takes an entry from the head of its old chain to the head of its new one. */
  method MoveEntry(h: LRUHandle, list: array<LRUHandle?>, ghost chains: seq<seq<LRUHandle>>, ghost from: nat, ghost n: nat)
    requires SlotsOk(list, chains, n) && list.Length > 0 && NextsOk(chains) && Apart(chains)
    requires from < n && chains[from] != [] && h == chains[from][0]
    modifies list, h`nextHash
    ensures var moved := Moved(chains, from, n + h.hash % list.Length); NextsOk(moved) && SlotsOk(list, moved, n)
  {
    hide Moved, Apart, AllOf;
    var bucket := h.hash % list.Length;
    ghost var onto := n + bucket;
    ghost var moved: seq<seq<LRUHandle>> := Moved(chains, from, onto);
    MovedShape(chains, from, onto);
    HeadIsApart(chains, from);
    h.nextHash := list[bucket];
    list[bucket] := h;
    forall b: nat, i: nat | b < |moved| && i < |moved[b]| ensures moved[b][i].nextHash == Link(moved[b], i + 1) {
      MovedAt(chains, from, onto, b, i);
    }
  }

  /** What follows place `i`. */
  function Rest(chain: seq<LRUHandle>, i: nat): seq<LRUHandle> { if i < |chain| then chain[i+1..] else [] }

  lemma PutIs(chain: seq<LRUHandle>, i: nat, h: LRUHandle)
    requires i <= |chain|
    ensures Put(chain, i, h) == chain[..i] + ([h] + Rest(chain, i))
  {
  }

  /** The chain around the place found. */
  lemma ChainFacts(chains: seq<seq<LRUHandle>>, b: nat, i: nat, h: LRUHandle)
    requires NextsOk(chains) && Apart(chains) && b < |chains| && i <= |chains[b]|
    requires h !in AllOf(chains) || (i < |chains[b]| && h == chains[b][i])
    ensures i < |chains[b]| ==> chains[b][i] in AllOf(chains) && chains[b][i].nextHash == Link(Rest(chains[b], i), 0)
    ensures i > 0 ==> chains[b][i-1] in AllOf(chains) && chains[b][i-1] !in Rest(chains[b], i) && chains[b][i-1] != h
    ensures forall k :: 0 <= k < |Rest(chains[b], i)| ==>
              && Rest(chains[b], i)[k].nextHash == Link(Rest(chains[b], i), k + 1) && Rest(chains[b], i)[k] != h
              && Rest(chains[b], i)[k] in AllOf(chains)
  {
    forall k | 0 <= k < |Rest(chains[b], i)|
      ensures Rest(chains[b], i)[k] == chains[b][i+1+k] && Rest(chains[b], i)[k] in AllOf(chains)
    {
    }
    assert i > 0 ==> chains[b][i-1] in AllOf(chains);
  }

  /** Entries outside may be written to. */
  method SetNext(h: LRUHandle, nextHash: LRUHandle?, ghost chains: seq<seq<LRUHandle>>)
    requires NextsOk(chains) && h !in AllOf(chains)
    modifies h`nextHash
    ensures NextsOk(chains) && h.nextHash == nextHash
  {
    h.nextHash := nextHash;
  }

  /** Sets the slot that points to place `i` of a chain, so that `rest` follows. */
  method PointTo(list: array<LRUHandle?>, bucket: nat, before: LRUHandle?, target: LRUHandle?,
                 ghost chains: seq<seq<LRUHandle>>, ghost i: nat, ghost rest: seq<LRUHandle>)
    requires SlotsOk(list, chains, 0) && NextsOk(chains) && Apart(chains)
    requires bucket < |chains| && i <= |chains[bucket]| && before == if i == 0 then null else chains[bucket][i-1]
    requires target == Link(rest, 0) && forall k :: 0 <= k < |rest| ==> rest[k].nextHash == Link(rest, k + 1)
    requires before !in rest
    modifies list, (if before == null then {} else {before})`nextHash
    ensures var more := chains[bucket := chains[bucket][..i] + rest]; SlotsOk(list, more, 0) && NextsOk(more)
  {
    if before == null {
      list[bucket] := target;
    } else {
      before.nextHash := target;
    }
  }

  lemma KeyReplaced(handles: set<LRUHandle>, previous: LRUHandle?, h: LRUHandle)
    requires DistinctKeys(handles)
    requires if previous == null then forall e :: e in handles ==> !e.Matches(h.key, h.hash)
             else previous in handles && previous.Matches(h.key, h.hash)
    ensures DistinctKeys(handles - (if previous == null then {} else {previous}) + {h})
  {
    forall e | e in handles && e.Matches(h.key, h.hash) ensures e == previous {
      assert previous != null ==> e.Matches(previous.key, previous.hash);
    }
  }

  /** The map that a set of entries with distinct keys stands for. */
  ghost function Find(handles: set<LRUHandle>, key: Bytes, hash: Word): LRUHandle? {
    if exists h :: h in handles && h.Matches(key, hash) then var h :| h in handles && h.Matches(key, hash); h else null
  }

  lemma FindIs(handles: set<LRUHandle>, h: LRUHandle)
    requires DistinctKeys(handles) && h in handles
    ensures Find(handles, h.key, h.hash) == h
  {
    var f := Find(handles, h.key, h.hash);
    assert f in handles && f.Matches(h.key, h.hash);
  }

  /** Replacing an entry is updating the map at its key. */
  lemma FindReplaced(handles: set<LRUHandle>, previous: LRUHandle?, h: LRUHandle, key: Bytes, hash: Word)
    requires DistinctKeys(handles)
    requires if previous == null then forall e :: e in handles ==> !e.Matches(h.key, h.hash)
             else previous in handles && previous.Matches(h.key, h.hash)
    ensures Find(handles - (if previous == null then {} else {previous}) + {h}, key, hash)
         == if h.Matches(key, hash) then h else Find(handles, key, hash)
  {
    var after := handles - (if previous == null then {} else {previous}) + {h};
    KeyReplaced(handles, previous, h);
    if h.Matches(key, hash) {
      FindIs(after, h);
    } else if e :| e in handles && e.Matches(key, hash) {
      assert e in after;
      FindIs(handles, e);
      FindIs(after, e);
    }
  }

  lemma FindRemoved(handles: set<LRUHandle>, removed: LRUHandle, key: Bytes, hash: Word)
    requires DistinctKeys(handles) && removed in handles
    ensures Find(handles - {removed}, key, hash) == if removed.Matches(key, hash) then null else Find(handles, key, hash)
  {
    FewerKeys(handles, removed);
    if removed.Matches(key, hash) {
      assert forall e :: e in handles && e.Matches(removed.key, removed.hash) ==> e == removed;
    } else if e :| e in handles && e.Matches(key, hash) {
      FindIs(handles, e);
      FindIs(handles - {removed}, e);
    }
  }

  lemma FewerKeys(handles: set<LRUHandle>, removed: LRUHandle)
    requires DistinctKeys(handles)
    ensures DistinctKeys(handles - {removed})
  {
  }

  /** The table counts its entries. */
  lemma {:induction false} TotalIsSize(chains: seq<seq<LRUHandle>>)
    requires Apart(chains)
    ensures Total(chains) == |AllOf(chains)|
  {
    hide AllOf;
    if chains == [] {
      TotalOfEmpty(chains);
    } else {
      var init, last := chains[..|chains|-1], chains[|chains|-1];
      LastChain(chains);
      TotalIsSize(init);
      SizeOfDistinct(last);
    }
  }

  lemma LastChain(chains: seq<seq<LRUHandle>>)
    requires Apart(chains) && chains != []
    ensures var init, last := chains[..|chains|-1], chains[|chains|-1];
      Apart(init) && Distinct(last) && AllOf(init) !! SetOf(last) && AllOf(chains) == AllOf(init) + SetOf(last)
  {
    var init, last := chains[..|chains|-1], chains[|chains|-1];
    assert forall b :: 0 <= b < |init| ==> init[b] == chains[b];
    forall b: nat, i: nat, j: nat | b < |init| && i < |init[b]| && j < |last| ensures init[b][i] != last[j] {
      assert chains[b][i] != chains[|chains|-1][j];
    }
    forall i, j | 0 <= i < j < |last| ensures last[i] != last[j] {
      assert chains[|chains|-1][i] != chains[|chains|-1][j];
    }
    LastChainApart(chains);
    LastChainAll(chains);
  }

  lemma LastChainApart(chains: seq<seq<LRUHandle>>)
    requires Apart(chains) && chains != []
    ensures Apart(chains[..|chains|-1])
  {
    var init := chains[..|chains|-1];
    forall b, c, i, j | 0 <= b < |init| && 0 <= c < |init| && 0 <= i < |init[b]| && 0 <= j < |init[c]|
                        && init[b][i] == init[c][j]
      ensures b == c && i == j
    {
      assert chains[b][i] == chains[c][j];
    }
  }

  lemma LastChainAll(chains: seq<seq<LRUHandle>>)
    requires chains != []
    ensures AllOf(chains) == AllOf(chains[..|chains|-1]) + SetOf(chains[|chains|-1])
  {
    var init, last := chains[..|chains|-1], chains[|chains|-1];
    forall b: nat, i: nat | b < |chains| && i < |chains[b]| ensures chains[b][i] in AllOf(init) + SetOf(last) {
      assert b < |init| ==> init[b][i] == chains[b][i];
    }
    forall i: nat | i < |last| ensures last[i] in AllOf(chains) {
      assert chains[|chains|-1][i] == last[i];
    }
    forall b: nat, i: nat | b < |init| && i < |init[b]| ensures init[b][i] in AllOf(chains) {
      assert chains[b][i] == init[b][i];
    }
  }

  lemma {:induction false} SizeOfDistinct(chain: seq<LRUHandle>)
    requires Distinct(chain)
    ensures |SetOf(chain)| == |chain|
  {
    if chain != [] {
      var init := chain[..|chain|-1];
      SizeOfDistinct(init);
      assert SetOf(chain) == SetOf(init) + {chain[|chain|-1]};
    }
  }

  // ----- The table -----

  class HandleTable {
    var list: array<LRUHandle?>
    var elems: nat
    /** The entries of each bucket, in chain order. */
    ghost var chains: seq<seq<LRUHandle>>

    ghost function Handles(): set<LRUHandle>
      reads this
    {
      AllOf(chains)
    }

    ghost predicate Linked()
      reads this, list, Handles()`nextHash
    {
      SlotsOk(list, chains, 0) && NextsOk(chains)
    }

    ghost predicate Valid()
      reads this, list, Handles()`nextHash
    {
      && Linked() && list.Length >= 4 && PowerOfTwo(list.Length)
      && Apart(chains) && Placed(chains) && DistinctKeys(Handles()) && elems == Total(chains) <= list.Length
    }

    /** The slot that points to the entry sought, or the trailing slot of its bucket: that of `before`, or the
        bucket's own. */
    method FindPointer(key: Bytes, hash: Word) returns (bucket: nat, before: LRUHandle?, found: LRUHandle?, ghost i: nat)
      requires Valid()
      ensures Valid() && bucket < |chains| && bucket == hash % |chains| && i <= |chains[bucket]|
      ensures found == Link(chains[bucket], i) && before == if i == 0 then null else chains[bucket][i-1]
      ensures if found == null then forall h :: h in Handles() ==> !h.Matches(key, hash) else found.Matches(key, hash)
    {
      hide Apart, DistinctKeys, PowerOfTwo;
      bucket, before, i := hash % list.Length, null, 0;
      found := list[bucket];
      while found != null && !(found.hash == hash && found.key == key)
        invariant i <= |chains[bucket]| && found == Link(chains[bucket], i)
        invariant before == if i == 0 then null else chains[bucket][i-1]
        invariant forall j :: 0 <= j < i ==> !chains[bucket][j].Matches(key, hash)
        decreases |chains[bucket]| - i
      {
        before := found;
        found := found.nextHash;
        i := i + 1;
      }
    }

    method Lookup(key: Bytes, hash: Word) returns (found: LRUHandle?)
      requires Valid()
      ensures found == null <==> forall h :: h in Handles() ==> !h.Matches(key, hash)
      ensures found != null ==> found in Handles() && found.Matches(key, hash)
      ensures found == Find(Handles(), key, hash)
    {
      hide Apart, PowerOfTwo, Placed;
      var bucket, before;
      ghost var i;
      bucket, before, found, i := FindPointer(key, hash);
    }

    /** Takes the place of the entry with its key, which is handed back, if there is one. */
    method Insert(h: LRUHandle) returns (previous: LRUHandle?)
      requires Valid() && h !in Handles()
      modifies this, list, Handles()`nextHash, h`nextHash
      ensures Valid() && (list == old(list) || fresh(list))
      ensures Handles() == old(Handles()) - (if previous == null then {} else {previous}) + {h}
      ensures if previous == null then forall e :: e in old(Handles()) ==> !e.Matches(h.key, h.hash)
              else previous in old(Handles()) && previous.Matches(h.key, h.hash)
      ensures forall key, hash: Word :: Find(Handles(), key, hash)
                                        == if h.Matches(key, hash) then h else Find(old(Handles()), key, hash)
    {
      hide Apart, AllOf, Total, Placed, DistinctKeys, PowerOfTwo, NextsOk, SlotsOk, Put;
      var bucket, before;
      ghost var i;
      bucket, before, previous, i := FindPointer(h.key, h.hash);
      ghost var chain := chains[bucket];
      ghost var rest := Rest(chain, i);
      ChainFacts(chains, bucket, i, h);
      KeyReplaced(Handles(), previous, h);
      forall key, hash: Word
        ensures Find(Handles() - (if previous == null then {} else {previous}) + {h}, key, hash)
             == if h.Matches(key, hash) then h else Find(Handles(), key, hash)
      {
        FindReplaced(Handles(), previous, h, key, hash);
      }
      PutKeeps(chains, bucket, i, h);
      PutIs(chain, i, h);
      SetNext(h, if previous == null then null else previous.nextHash, chains);
      assert SlotsOk(list, chains, 0);
      PointTo(list, bucket, before, h, chains, i, [h] + rest);
      chains := chains[bucket := Put(chain, i, h)];
      if previous == null {
        elems := elems + 1;
        if elems > list.Length {
          Resize();
        }
      }
    }

    method Remove(key: Bytes, hash: Word) returns (removed: LRUHandle?)
      requires Valid()
      modifies this, list, Handles()`nextHash
      ensures Valid() && list == old(list)
      ensures Handles() == old(Handles()) - (if removed == null then {} else {removed})
      ensures if removed == null then forall e :: e in old(Handles()) ==> !e.Matches(key, hash)
              else removed in old(Handles()) && removed.Matches(key, hash)
      ensures removed == Find(old(Handles()), key, hash)
    {
      hide Apart, AllOf, Total, Placed, DistinctKeys, PowerOfTwo, NextsOk, SlotsOk;
      var bucket, before;
      ghost var i;
      bucket, before, removed, i := FindPointer(key, hash);
      if removed != null {
        ghost var chain := chains[bucket];
        ChainFacts(chains, bucket, i, removed);
        FewerKeys(Handles(), removed);
        FindIs(Handles(), removed);
        RemoveKeeps(chains, bucket, i);
        PointTo(list, bucket, before, removed.nextHash, chains, i, Rest(chain, i));
        chains := chains[bucket := Without(chain, i)];
        elems := elems - 1;
      }
    }

    constructor ()
      ensures Valid() && Handles() == {} && fresh(list)
    {
      list := new LRUHandle?[0];
      elems, chains := 0, [];
      new;
      Resize();
    }

    /** Grows to at least one bucket for each entry. */
    method Resize()
      requires Linked() && Apart(chains) && DistinctKeys(Handles()) && elems == Total(chains)
      modifies this, Handles()`nextHash
      ensures Valid() && Handles() == old(Handles()) && elems == old(elems) <= list.Length && fresh(list)
    {
      hide Apart, AllOf, Total, Moved, DistinctKeys, InTransit, NextsOk, SlotsOk, Placed;
      var newLength := 4;
      while newLength < elems
        invariant newLength >= 4 && PowerOfTwo(newLength)
        decreases elems - newLength
      {
        newLength := newLength * 2;
      }
      var newList := new LRUHandle?[newLength](_ => null);
      ghost var n := |chains|;
      ghost var all := chains + seq(newLength, _ => []);
      StartTransit(list, newList, chains, all);
      var i := 0;
      while i < list.Length
        modifies newList, Handles()`nextHash
        invariant i <= n == list.Length && |all| == n + newLength && SlotsOk(list, chains, 0) && InTransit(all, chains, i, i) && SlotsOk(newList, all, n) && NextsOk(all)
      {
        var h := list[i];
        OpenChain(list, all, chains, i);
        while h != null
          modifies newList, Handles()`nextHash
          invariant SlotsOk(list, chains, 0) && |all| == n + newLength
          invariant InTransit(all, chains, i, i + 1) && h == Link(all[i], 0) && SlotsOk(newList, all, n) && NextsOk(all)
          decreases |all[i]|
        {
          var next := h.nextHash;
          HeadOfChain(all, chains, i);
          MoveEntry(h, newList, all, i, n);
          MovedInTransit(all, chains, i, n + h.hash % newLength);
          all := Moved(all, i, n + h.hash % newLength);
          h := next;
        }
        CloseChain(all, chains, i);
        i := i + 1;
      }
      EndTransit(newList, all, chains);
      list := newList;
      chains := all[n..];
    }
  }

  predicate PowerOfTwo(n: nat) { n == 1 || (n > 1 && n % 2 == 0 && PowerOfTwo(n / 2)) }

  /** While resizing: chains before `i` are empty, those from `same` on are as they were, and the new ones, behind,
      hold what is gone. */
  ghost predicate InTransit(all: seq<seq<LRUHandle>>, was: seq<seq<LRUHandle>>, i: nat, same: nat) {
    var n := |was|;
    && n < |all| && Apart(all) && AllOf(all) == AllOf(was) && Total(all) == Total(was)
    && (forall b :: 0 <= b < n && b < i ==> all[b] == [])
    && (forall b :: same <= b < n ==> all[b] == was[b])
    && (forall b, k :: n <= b < |all| && 0 <= k < |all[b]| ==> all[b][k].hash % (|all| - n) == b - n)
  }

  lemma StartTransit(list: array<LRUHandle?>, newList: array<LRUHandle?>, chains: seq<seq<LRUHandle>>, all: seq<seq<LRUHandle>>)
    requires SlotsOk(list, chains, 0) && NextsOk(chains) && Apart(chains) && newList.Length > 0
    requires all == chains + seq(newList.Length, _ => []) && forall b :: 0 <= b < newList.Length ==> newList[b] == null
    ensures |chains| == list.Length && InTransit(all, chains, 0, 0) && SlotsOk(newList, all, |chains|) && NextsOk(all)
  {
    hide Apart, AllOf, Total;
    EmptyAppended(chains, seq(newList.Length, _ => []));
  }

  lemma OpenChain(list: array<LRUHandle?>, all: seq<seq<LRUHandle>>, was: seq<seq<LRUHandle>>, i: nat)
    requires SlotsOk(list, was, 0) && InTransit(all, was, i, i) && i < |was|
    ensures InTransit(all, was, i, i + 1) && i < |all| && list[i] == Link(all[i], 0)
  {
    hide Apart, AllOf, Total;
  }

  lemma HeadOfChain(all: seq<seq<LRUHandle>>, was: seq<seq<LRUHandle>>, i: nat)
    requires InTransit(all, was, i, i + 1) && i < |was| && i < |all| && all[i] != [] && NextsOk(all)
    ensures Apart(all) && all[i][0] in AllOf(was) && all[i][0].nextHash == Link(all[i], 1)
    ensures AllOf(all) == AllOf(was)
  {
    hide Apart, Total;
  }

  lemma CloseChain(all: seq<seq<LRUHandle>>, was: seq<seq<LRUHandle>>, i: nat)
    requires InTransit(all, was, i, i + 1) && i < |was| && i < |all| && all[i] == []
    ensures InTransit(all, was, i + 1, i + 1)
  {
    hide Apart, AllOf, Total;
  }

  lemma EndTransit(list: array<LRUHandle?>, all: seq<seq<LRUHandle>>, was: seq<seq<LRUHandle>>)
    requires InTransit(all, was, |was|, |was|) && SlotsOk(list, all, |was|) && NextsOk(all)
    ensures |was| <= |all|
    ensures var chains := all[|was|..];
      && Apart(chains) && Placed(chains) && AllOf(chains) == AllOf(was) && Total(chains) == Total(was)
      && SlotsOk(list, chains, 0) && NextsOk(chains)
  {
    hide Apart, AllOf, Total;
    EmptyDropped(all, |was|);
  }

  lemma MovedInTransit(all: seq<seq<LRUHandle>>, was: seq<seq<LRUHandle>>, i: nat, onto: nat)
    requires InTransit(all, was, i, i + 1) && i < |was| <= onto < |all| && all[i] != []
    requires onto == |was| + all[i][0].hash % (|all| - |was|)
    ensures InTransit(Moved(all, i, onto), was, i, i + 1)
    ensures |Moved(all, i, onto)| == |all| && Moved(all, i, onto)[i] == all[i][1..]
  {
    hide Apart, AllOf, Total;
    MovedKeeps(all, i, onto);
  }
}
