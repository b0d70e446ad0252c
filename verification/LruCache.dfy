/** One shard of the cache (util/cache.cc, LRUCache): a hash table and a recency list over the same entries, with
    reference counts. */
module LruCaches {
  import opened Keys
  import opened Coding
  import opened HandleTables
  import opened Rings

  ghost function Charges(s: set<LRUHandle>): nat {
    if s == {} then 0 else var e :| e in s; e.charge + Charges(s - {e})
  }

  lemma {:induction false} ChargesWithout(s: set<LRUHandle>, e: LRUHandle)
    requires e in s
    ensures Charges(s) == e.charge + Charges(s - {e})
    decreases |s|
  {
    var x :| x in s && Charges(s) == x.charge + Charges(s - {x});
    if x != e {
      ChargesWithout(s - {x}, e);
      ChargesWithout(s - {e}, x);
      assert s - {x} - {e} == s - {e} - {x};
    }
  }

  /** The list without the entry of a key. */
  function WithoutKey(order: seq<LRUHandle>, key: Bytes, hash: Word): seq<LRUHandle> {
    if order == [] then []
    else if order[0].Matches(key, hash) then WithoutKey(order[1..], key, hash)
    else [order[0]] + WithoutKey(order[1..], key, hash)
  }

  lemma {:induction false} WithoutKeyFewer(order: seq<LRUHandle>, key: Bytes, hash: Word)
    ensures forall h :: h in WithoutKey(order, key, hash) ==> h in order
  {
    if order != [] {
      WithoutKeyFewer(order[1..], key, hash);
    }
  }

  /** And what that leaves out. */
  function Matching(order: seq<LRUHandle>, key: Bytes, hash: Word): seq<LRUHandle> {
    if order == [] then []
    else (if order[0].Matches(key, hash) then [order[0]] else []) + Matching(order[1..], key, hash)
  }

  lemma {:induction false} NoSuchKey(order: seq<LRUHandle>, key: Bytes, hash: Word)
    requires forall h :: h in order ==> !h.Matches(key, hash)
    ensures WithoutKey(order, key, hash) == order && Matching(order, key, hash) == []
  {
    if order != [] {
      NoSuchKey(order[1..], key, hash);
    }
  }

  lemma {:induction false} OnlySuchKey(order: seq<LRUHandle>, i: nat, key: Bytes, hash: Word)
    requires i < |order| && order[i].Matches(key, hash)
    requires forall k :: 0 <= k < |order| && k != i ==> !order[k].Matches(key, hash)
    ensures WithoutKey(order, key, hash) == Without(order, i) && Matching(order, key, hash) == [order[i]]
  {
    if i == 0 {
      NoSuchKey(order[1..], key, hash);
    } else {
      OnlySuchKey(order[1..], i - 1, key, hash);
      assert Without(order, i) == [order[0]] + Without(order[1..], i - 1);
    }
  }

  /** Those no caller holds. */
  function Unheld(gone: seq<LRUHandle>, held: multiset<LRUHandle>): seq<LRUHandle> {
    if gone == [] then []
    else Unheld(gone[..|gone|-1], held) + if gone[|gone|-1] in held then [] else [gone[|gone|-1]]
  }

  lemma UnheldOne(e: LRUHandle, held: multiset<LRUHandle>)
    ensures Unheld([e], held) == if e in held then [] else [e]
  {
    assert [e][..0] == [];
  }

  lemma UnheldNone(held: multiset<LRUHandle>)
    ensures Unheld([], held) == []
  {
  }

  lemma UnheldMore(gone: seq<LRUHandle>, e: LRUHandle, held: multiset<LRUHandle>)
    ensures Unheld(gone + [e], held) == Unheld(gone, held) + Unheld([e], held)
  {
    assert (gone + [e])[..|gone|] == gone;
    UnheldOne(e, held);
  }

  class LRUCache {
    const capacity: nat
    var usage: nat
    /** The dummy head of the recency list. */
    const lru: LRUHandle
    const table: HandleTable
    /** The recency list, oldest first. */
    ghost var order: seq<LRUHandle>
    /** The entries not yet freed. */
    ghost var live: set<LRUHandle>
    /** The handles callers have and have not released. */
    ghost var held: multiset<LRUHandle>
    /** The entries whose deleter was called, in the order of the calls. */
    ghost var freed: seq<LRUHandle>

    ghost predicate Ring()
      reads this`order, lru`next, lru`prev, order`next, order`prev
    {
      && lru !in order && Distinct(order)
      && (forall k :: -1 <= k < |order| ==> At(lru, order, k).next == At(lru, order, k + 1))
      && (forall k :: 0 <= k <= |order| ==> At(lru, order, k).prev == At(lru, order, k - 1))
    }

    /** An entry counts its place in the cache and the handles held; `extra` has one reference more. */
    ghost predicate Counted(order: seq<LRUHandle>, held: multiset<LRUHandle>, extra: LRUHandle?)
      reads `usage, `live, `freed, live`refs
    {
      && (forall h :: h in order ==> h in live) && (forall h :: h in held ==> h in live)
      && (forall h :: h in live ==>
            h.refs == held[h] + (if h in order then 1 else 0) + (if h == extra then 1 else 0) && h.refs > 0)
      && lru !in live && usage == Charges(live)
      && Distinct(freed) && (forall h :: h in freed ==> h !in live)
    }

    ghost predicate Valid()
      reads this, lru, order, live, table, table.list, table.Handles()
    {
      Ring() && Counted(order, held, null) && table.Valid() && table.Handles() == SetOf(order)
    }

    constructor (capacity: nat)
      ensures Valid() && this.capacity == capacity && order == [] && live == {} && held == multiset{} && freed == []
      ensures fresh(lru) && fresh(table) && fresh(table.list)
    {
      this.capacity, usage := capacity, 0;
      lru := new LRUHandle([], 0, [], 0, 0);
      table := new HandleTable();
      order, live, held, freed := [], {}, multiset{}, [];
    }

    method LRU_Remove(e: LRUHandle, ghost i: nat)
      requires Ring() && i < |order| && e == order[i]
      modifies `order, lru`next, lru`prev, order`next, order`prev
      ensures Ring() && order == Without(old(order), i)
    {
      ghost var was := order;
      assert At(lru, was, i) == e && e.prev == At(lru, was, i - 1) && e.next == At(lru, was, i + 1);
      WithoutDistinct(was, i);
      e.next.prev := e.prev;
      e.prev.next := e.next;
      order := Without(was, i);
      assert forall k :: -1 <= k <= |order| ==> At(lru, order, k) == At(lru, was, if k < i then k else k + 1);
    }

    /** Makes `e` the newest entry. */
    method LRU_Append(e: LRUHandle)
      requires Ring() && e != lru && e !in order
      modifies `order, lru`next, lru`prev, order`next, order`prev, e`next, e`prev
      ensures Ring() && order == old(order) + [e]
    {
      ghost var was, n := order, |order|;
      assert At(lru, was, n) == lru && lru.prev == At(lru, was, n - 1);
      e.next := lru;
      e.prev := lru.prev;
      e.prev.next := e;
      e.next.prev := e;
      order := was + [e];
      assert forall k :: -1 <= k < n ==> At(lru, order, k) == At(lru, was, k);
      assert forall k :: -1 <= k < n - 1 ==> At(lru, was, k) != At(lru, was, n - 1);
    }

    /** Frees the entry with its last reference. */
    method Unref(e: LRUHandle, ghost order: seq<LRUHandle>)
      requires Counted(order, held, e) && e in live
      modifies `usage, `live, `freed, e`refs
      ensures Counted(order, held, null)
      ensures var last := e !in order && e !in held;
        && live == old(live) - (if last then {e} else {}) && freed == old(freed) + (if last then [e] else [])
        && usage == old(usage) - if last then e.charge else 0
    {
      e.refs := e.refs - 1;
      if e.refs == 0 {
        ChargesWithout(live, e);
        usage := usage - e.charge;
        live := live - {e};
        freed := freed + [e];
      }
    }

    lemma CountRelease(order: seq<LRUHandle>, e: LRUHandle)
      requires Counted(order, held, null) && e in held
      ensures Counted(order, held - multiset{e}, e) && e in live
    {
      hide Charges, Distinct;
    }

    lemma CountRemove(order: seq<LRUHandle>, i: nat)
      requires Counted(order, held, null) && Distinct(order) && i < |order|
      ensures Counted(Without(order, i), held, order[i]) && order[i] in live && order[i] !in Without(order, i)
    {
      hide Charges, Distinct;
      WithoutDistinct(order, i);
    }

    lemma CountAppend(order: seq<LRUHandle>, e: LRUHandle)
      requires Counted(order, held, e) && e in live && e !in order
      ensures Counted(order + [e], held, null)
    {
      hide Charges, Distinct;
    }

    lemma RingFacts()
      requires Ring()
      ensures lru !in order && Distinct(order) && lru.next == At(lru, order, 0)
    {
      assert At(lru, order, -1).next == At(lru, order, 0);
    }

    /** Another handle to an entry of the cache. */
    method AddHandle(e: LRUHandle)
      requires Counted(order, held, null) && e in order
      modifies `held, e`refs
      ensures Counted(order, held, null) && held == old(held) + multiset{e} && e in live
    {
      e.refs := e.refs + 1;
      held := held + multiset{e};
    }

    /** Hands out an entry, which becomes the newest. */
    method Use(e: LRUHandle, ghost i: nat)
      requires Ring() && Counted(order, held, null) && i < |order| && e == order[i]
      modifies `order, `held, lru`next, lru`prev, order`next, order`prev, order`refs
      ensures Ring() && Counted(order, held, null)
      ensures order == Without(old(order), i) + [e] && held == old(held) + multiset{e}
    {
      hide Ring, Counted, Charges, Distinct;
      RingFacts();
      AddHandle(e);
      CountRemove(order, i);
      CountAppend(Without(order, i), e);
      LRU_Remove(e, i);
      LRU_Append(e);
    }

    /** Takes an entry off the recency list and drops the cache's reference. */
    method Dismiss(e: LRUHandle, ghost i: nat)
      requires Ring() && Counted(order, held, null) && i < |order| && e == order[i]
      modifies `order, `usage, `live, `freed, lru`next, lru`prev, order`next, order`prev, order`refs
      ensures Ring() && Counted(order, held, null) && order == Without(old(order), i)
      ensures live == old(live) - (if e in held then {} else {e}) && freed == old(freed) + Unheld([e], held)
    {
      hide Ring, Counted, Charges, Distinct;
      RingFacts();
      CountRemove(order, i);
      LRU_Remove(e, i);
      Unref(e, order);
      UnheldOne(e, held);
    }

    method Release(handle: LRUHandle)
      requires Valid() && handle in held
      modifies this, handle`refs
      ensures Valid() && held == old(held) - multiset{handle} && order == old(order)
      ensures freed == old(freed) + if handle in order || handle in held then [] else [handle]
    {
      hide Ring, Counted, Charges;
      CountRelease(order, handle);
      held := held - multiset{handle};
      Unref(handle, order);
    }

    method Lookup(key: Bytes, hash: Word) returns (e: LRUHandle?)
      requires Valid()
      modifies this, lru, order
      ensures Valid() && live == old(live) && freed == old(freed)
      ensures if e == null
              then order == old(order) && held == old(held) && forall h :: h in order ==> !h.Matches(key, hash)
              else e in old(order) && e.Matches(key, hash) && held == old(held) + multiset{e}
                   && order == WithoutKey(old(order), key, hash) + [e]
    {
      hide Ring, Counted, Charges, Apart, Placed, NextsOk, SlotsOk, PowerOfTwo, Total, Distinct, DistinctKeys, SetOf, WithoutKey, Matching, Unheld;
      e := table.Lookup(key, hash);
      MembersAre(order);
      if e != null {
        ghost var i := Position(order, e);
        RingFacts();
        KeysApart(table.Handles(), order, i);
        OnlySuchKey(order, i, key, hash);
        SameMembers(order, i);
        Use(e, i);
      }
    }

    /** The new entry replaces any of its key; `gone` is what it replaces. */
    method AddEntry(key: Bytes, hash: Word, value: Bytes, charge: nat) returns (e: LRUHandle, ghost gone: seq<LRUHandle>)
      requires Valid()
      modifies this, lru, order, table, table.list
      ensures Valid() && fresh(e) && e.Matches(key, hash) && e.value == value && e.charge == charge
      ensures order == WithoutKey(old(order), key, hash) + [e] && gone == Matching(old(order), key, hash)
      ensures held == old(held) + multiset{e} && freed == old(freed) + Unheld(gone, held)
      ensures table.list == old(table.list) || fresh(table.list)
    {
      hide Ring, Counted, Charges, Apart, Placed, NextsOk, SlotsOk, PowerOfTwo, Total, Distinct, DistinctKeys, SetOf, WithoutKey, Matching, Unheld;
      ghost var was := order;
      MembersAre(was);
      RingFacts();
      e := Admit(key, hash, value, charge);
      OneMoreMember(was, e);
      RingFacts();
      var previous := table.Insert(e);
      if previous == null {
        NoSuchKey(was, key, hash);
        gone := [];
        UnheldNone(held);
        assert table.Handles() == SetOf(was) + {e};
      } else {
        ghost var i := Position(was, previous);
        KeysApart(old(table.Handles()), was, i);
        OnlySuchKey(was, i, key, hash);
        gone := [previous];
        DismissReplaced(previous, was, i, e);
      }
    }

    /** The entry that `e` has replaced in the table goes. */
    method DismissReplaced(previous: LRUHandle, ghost was: seq<LRUHandle>, ghost i: nat, ghost e: LRUHandle)
      requires Ring() && Counted(order, held, null) && table.Valid()
      requires i < |was| && previous == was[i] && order == was + [e] && table.Handles() == SetOf(was) - {previous} + {e}
      modifies this, lru, order
      ensures Valid() && order == Without(was, i) + [e] && held == old(held)
      ensures freed == old(freed) + Unheld([previous], held)
    {
      hide Ring, Counted, Charges, Apart, Placed, NextsOk, SlotsOk, PowerOfTwo, Total, Distinct, DistinctKeys, SetOf, Unheld;
      RingFacts();
      ReplacedMembers(was, i, e);
      Dismiss(previous, i);
    }

    /** The oldest entries go while the cache is over its capacity, and no more of them than that takes. */
    method EvictExcess() returns (ghost evicted: seq<LRUHandle>)
      requires Valid()
      modifies this, lru, order, table, table.list
      ensures Valid() && old(order) == evicted + order && held == old(held) && table.list == old(table.list)
      ensures usage <= capacity || order == []
      ensures evicted != [] ==>
                var last := evicted[|evicted|-1]; usage + (if last in held then 0 else last.charge) > capacity
      ensures freed == old(freed) + Unheld(evicted, held)
    {
      hide Ring, Counted, Charges, Apart, Placed, NextsOk, SlotsOk, PowerOfTwo, Total, Distinct, DistinctKeys, SetOf, Unheld;
      evicted := [];
      UnheldNone(held);
      RingFacts();
      while usage > capacity && lru.next != lru
        invariant Valid() && table.list == old(table.list) && held == old(held)
        invariant lru.next == At(lru, order, 0) && lru !in order
        invariant |evicted| <= |old(order)| && evicted == old(order)[..|evicted|] && order == old(order)[|evicted|..]
        invariant evicted != [] ==>
                    var last := evicted[|evicted|-1]; usage + (if last in held then 0 else last.charge) > capacity
        invariant freed == old(freed) + Unheld(evicted, held)
        decreases |order|
      {
        var e := Evict();
        UnheldMore(evicted, e, held);
        evicted := evicted + [e];
        RingFacts();
      }
    }

    /** The new entry replaces any of its key; then the oldest go, possibly all, until the rest fits. */
    method Insert(key: Bytes, hash: Word, value: Bytes, charge: nat) returns (e: LRUHandle, ghost evicted: seq<LRUHandle>)
      requires Valid()
      modifies this, lru, order, table, table.list
      ensures Valid() && fresh(e) && e.Matches(key, hash) && e.value == value && e.charge == charge
      ensures WithoutKey(old(order), key, hash) + [e] == evicted + order
      ensures usage <= capacity || order == []
      ensures evicted != [] ==>
                var last := evicted[|evicted|-1]; usage + (if last in held then 0 else last.charge) > capacity
      ensures held == old(held) + multiset{e}
      ensures freed == old(freed) + Unheld(Matching(old(order), key, hash), held) + Unheld(evicted, held)
    {
      hide Ring, Counted, Charges, Apart, Placed, NextsOk, SlotsOk, PowerOfTwo, Total, Distinct, DistinctKeys, SetOf, WithoutKey, Matching, Unheld;
      ghost var gone;
      e, gone := AddEntry(key, hash, value, charge);
      WithoutKeyFewer(old(order), key, hash);
      assert forall k :: 0 <= k < |order| ==> order[k] in old(order) || fresh(order[k]);
      evicted := EvictExcess();
    }

    /** Frees what is left; callers have released their handles. */
    method Destroy()
      requires Valid() && held == multiset{}
      modifies `usage, `live, `freed, order`refs
      ensures live == {} && usage == 0 && freed == old(freed) + order
    {
      hide Ring, Counted, Charges, Distinct, Apart, Placed, NextsOk, SlotsOk, PowerOfTwo, Total, DistinctKeys;
      RingFacts();
      var e := lru.next;
      ghost var k := 0;
      assert order[0..] == order;
      while e != lru
        invariant k <= |order| && e == At(lru, order, k) && Ring()
        invariant Counted(order[k..], held, null) && freed == old(freed) + order[..k]
        decreases |order| - k
      {
        var next := e.next;
        NextOnRing(k);
        DistinctTail(order, k);
        CountRemove(order[k..], 0);
        Unref(e, order[k+1..]);
        e, k := next, k + 1;
      }
      assert order[k..] == [] && order[..k] == order;
      NoneLeft();
    }

    lemma NextOnRing(k: nat)
      requires Ring() && k < |order|
      ensures At(lru, order, k).next == At(lru, order, k + 1)
    {
    }

    lemma NoneLeft()
      requires Counted([], multiset{}, null)
      ensures live == {} && usage == 0
    {
    }

    method Erase(key: Bytes, hash: Word)
      requires Valid()
      modifies this, lru, order, table, table.list
      ensures Valid() && held == old(held) && order == WithoutKey(old(order), key, hash)
      ensures freed == old(freed) + Unheld(Matching(old(order), key, hash), held)
      ensures table.list == old(table.list)
    {
      hide Ring, Counted, Charges, Apart, Placed, NextsOk, SlotsOk, PowerOfTwo, Total, Distinct, DistinctKeys, SetOf, WithoutKey, Matching, Unheld;
      MembersAre(order);
      var e := table.Remove(key, hash);
      if e == null {
        NoSuchKey(order, key, hash);
        UnheldNone(held);
      } else {
        ghost var i := Position(order, e);
        RingFacts();
        KeysApart(old(table.Handles()), order, i);
        OnlySuchKey(order, i, key, hash);
        FewerMembers(order, i);
        Dismiss(e, i);
      }
    }

    /** A new entry, held once by the cache and once by the caller, becomes the newest. */
    method Admit(key: Bytes, hash: Word, value: Bytes, charge: nat) returns (e: LRUHandle)
      requires Ring() && Counted(order, held, null)
      modifies `order, `usage, `live, `held, lru`next, lru`prev, order`next, order`prev
      ensures Ring() && Counted(order, held, null) && fresh(e) && e.Matches(key, hash) && e.charge == charge && e.value == value
      ensures order == old(order) + [e] && live == old(live) + {e} && held == old(held) + multiset{e} && freed == old(freed)
    {
      hide Charges;
      e := new LRUHandle(key, hash, value, charge, 2);
      LRU_Append(e);
      usage := usage + charge;
      live, held := live + {e}, held + multiset{e};
      ChargesWithout(live, e);
      assert live - {e} == old(live);
    }

    /** Drops the oldest entry. */
    method Evict() returns (e: LRUHandle)
      requires Valid() && order != []
      modifies this, lru, order, table, table.list
      ensures Valid() && order == old(order)[1..] && held == old(held) && e == old(order)[0]
      ensures freed == old(freed) + Unheld([e], held)
      ensures usage == old(usage) - if e in held then 0 else e.charge
      ensures table.list == old(table.list)
    {
      hide Ring, Counted, Charges, Apart, Placed, NextsOk, SlotsOk, PowerOfTwo, Total, Distinct, DistinctKeys, SetOf, WithoutKey, Matching, Unheld;
      MembersAre(order);
      RingFacts();
      e := lru.next;
      FewerMembers(order, 0);
      CountRemove(order, 0);
      OnlyMatch(table.Handles(), e);
      LRU_Remove(e, 0);
      var removed := table.Remove(e.key, e.hash);
      Unref(e, order);
      UnheldOne(e, held);
    }
  }

  lemma ReplacedMembers(order: seq<LRUHandle>, i: nat, e: LRUHandle)
    requires Distinct(order + [e]) && i < |order|
    ensures Without(order + [e], i) == Without(order, i) + [e]
    ensures SetOf(Without(order, i) + [e]) == SetOf(order) - {order[i]} + {e}
  {
    assert forall k :: 0 <= k < |order| ==> (order + [e])[k] == order[k];
    assert forall k :: 0 <= k < |order| ==> (order + [e])[k] != (order + [e])[|order|];
    assert Distinct(order);
    WithoutDistinct(order, i);
  }

  lemma OneMoreMember(order: seq<LRUHandle>, e: LRUHandle)
    ensures SetOf(order + [e]) == SetOf(order) + {e}
  {
  }

  lemma OnlyMatch(handles: set<LRUHandle>, e: LRUHandle)
    requires DistinctKeys(handles) && e in handles
    ensures forall h :: h in handles && h.Matches(e.key, e.hash) ==> h == e
  {
  }

  lemma DistinctTail(order: seq<LRUHandle>, k: nat)
    requires Distinct(order) && k < |order|
    ensures Distinct(order[k..]) && Without(order[k..], 0) == order[k+1..] && order[k] !in order[k+1..]
  {
  }

  lemma MembersAre(order: seq<LRUHandle>)
    ensures forall h :: h in SetOf(order) <==> h in order
  {
  }

  lemma SameMembers(order: seq<LRUHandle>, i: nat)
    requires Distinct(order) && i < |order|
    ensures SetOf(Without(order, i) + [order[i]]) == SetOf(order)
  {
    WithoutDistinct(order, i);
  }

  lemma FewerMembers(order: seq<LRUHandle>, i: nat)
    requires Distinct(order) && i < |order|
    ensures SetOf(Without(order, i)) == SetOf(order) - {order[i]}
  {
    WithoutDistinct(order, i);
  }

  lemma Position(order: seq<LRUHandle>, e: LRUHandle) returns (i: nat)
    requires e in order
    ensures i < |order| && order[i] == e
  {
    i :| 0 <= i < |order| && order[i] == e;
  }

  lemma KeysApart(handles: set<LRUHandle>, order: seq<LRUHandle>, i: nat)
    requires DistinctKeys(handles) && handles == SetOf(order) && Distinct(order) && i < |order|
    ensures forall k :: 0 <= k < |order| && k != i ==> !order[k].Matches(order[i].key, order[i].hash)
  {
    forall k | 0 <= k < |order| && k != i ensures !order[k].Matches(order[i].key, order[i].hash) {
      assert order[k] in handles && order[i] in handles;
    }
  }
}
