/** Document snapshots (qdoccollection.cpp) over the in-memory store.  The store holds, for a document id, the key
    "d:<id>:" and one key "d:<id>:<snapshot id>" for each version; index and observer data are left out. */
module QDocCollections {
  import opened Keys
  import opened Comparator
  import opened QDocKVMaps

  const COLON: byte := 58
  const CURRENT_NAME: string := "__CURRENT"

  function DocPrefix(id: Bytes): Bytes { [100, COLON] + id }
  function StartKey(id: Bytes): Bytes { DocPrefix(id) + [COLON] }
  function LinkKey(id: Bytes, sid: byte): Bytes { StartKey(id) + [sid] }

  /** Ids are nonempty, have no colon, and none is a prefix of another. */
  predicate IdsOk(ids: set<Bytes>) {
    && (forall id :: id in ids ==> id != [] && COLON !in id)
    && (forall a, b :: a in ids && b in ids && HasPrefix(b, a) ==> a == b)
  }

  predicate IsStart(ids: set<Bytes>, key: Bytes) { exists id :: id in ids && key == StartKey(id) }

  predicate IsLink(ids: set<Bytes>, key: Bytes) {
    |key| > 0 && exists id :: id in ids && key == LinkKey(id, key[|key|-1])
  }

  ghost predicate DbOk(db: seq<Pair>, ids: set<Bytes>) {
    && IdsOk(ids) && KeysSorted(db)
    && (forall i :: 0 <= i < |db| ==> IsStart(ids, db[i].key) || IsLink(ids, db[i].key))
    && (forall id, sid: byte :: id in ids && Get(db, LinkKey(id, sid)).Some? ==> Get(db, StartKey(id)).Some?)
  }

  /** No version belongs to a snapshot after `last`. */
  ghost predicate LinksWithin(db: seq<Pair>, ids: set<Bytes>, last: int) {
    forall id, sid: byte :: id in ids && sid as int > last ==> Get(db, LinkKey(id, sid)) == None
  }

  function Shown(v: Value): Value { if v == Empty then Undefined else v }

  /** What a snapshot shows of a document: its newest version at or before the snapshot. */
  function View(db: seq<Pair>, id: Bytes, s: int): Value
    requires s < 256
    decreases s + 1
  {
    if s < 0 then Undefined
    else match Get(db, LinkKey(id, s as byte)) {
      case Some(v) => Shown(v)
      case None => View(db, id, s - 1)
    }
  }

  /** Version `t` is the newest at or before the snapshot. */
  ghost predicate NewestVersion(db: seq<Pair>, id: Bytes, s: int, t: byte) {
    && t as int <= s && Get(db, LinkKey(id, t)).Some?
    && forall m: byte :: t < m && m as int <= s ==> Get(db, LinkKey(id, m)) == None
  }

  /** A snapshot shows the newest version at or before it, but nothing of a deleted document or one without versions. */
  lemma ViewIsNewest(db: seq<Pair>, id: Bytes, s: int)
    requires s < 256
    ensures forall t: byte :: NewestVersion(db, id, s, t) ==>
              var v := Get(db, LinkKey(id, t)).value; View(db, id, s) == if v == Empty then Undefined else v
    ensures (forall t: byte :: t as int <= s ==> Get(db, LinkKey(id, t)) == None) ==> View(db, id, s) == Undefined
  {
    hide Get, LinkKey, NewestVersion, View;
    forall t: byte | NewestVersion(db, id, s, t)
      ensures Get(db, LinkKey(id, t)).Some?
      ensures var v := Get(db, LinkKey(id, t)).value; View(db, id, s) == if v == Empty then Undefined else v
    {
      ViewOfNewest(db, id, s, t);
    }
    if forall t: byte :: t as int <= s ==> Get(db, LinkKey(id, t)) == None {
      ViewOfNone(db, id, s);
    }
  }

  lemma {:induction false} ViewOfNewest(db: seq<Pair>, id: Bytes, s: int, t: byte)
    requires s < 256 && NewestVersion(db, id, s, t)
    ensures Get(db, LinkKey(id, t)).Some?
    ensures var v := Get(db, LinkKey(id, t)).value; View(db, id, s) == if v == Empty then Undefined else v
    decreases s + 1
  {
    hide Get, LinkKey;
    if t as int < s {
      assert Get(db, LinkKey(id, s as byte)) == None;
      ViewOfNewest(db, id, s - 1, t);
    }
  }

  lemma {:induction false} ViewOfNone(db: seq<Pair>, id: Bytes, s: int)
    requires s < 256 && forall t: byte :: t as int <= s ==> Get(db, LinkKey(id, t)) == None
    ensures View(db, id, s) == Undefined
    decreases s + 1
  {
    hide Get, LinkKey;
    if s >= 0 {
      assert Get(db, LinkKey(id, s as byte)) == None;
      ViewOfNone(db, id, s - 1);
    }
  }

  // ----- Keys -----

  lemma KeysDiffer(a: Bytes, b: Bytes, s: byte, t: byte)
    ensures LinkKey(a, s) == LinkKey(b, t) ==> a == b && s == t
    ensures StartKey(a) == StartKey(b) ==> a == b
  {
    if LinkKey(a, s) == LinkKey(b, t) {
      assert LinkKey(a, s)[|LinkKey(a, s)|-1] == s && LinkKey(b, t)[|LinkKey(b, t)|-1] == t;
      assert LinkKey(a, s)[2..|a|+2] == a && LinkKey(b, t)[2..|b|+2] == b;
    }
    if StartKey(a) == StartKey(b) {
      assert StartKey(a)[2..|a|+2] == a && StartKey(b)[2..|b|+2] == b;
    }
  }

  /** The byte before the last tells the two kinds of key apart. */
  lemma KindOfKey(ids: set<Bytes>)
    requires IdsOk(ids)
    ensures forall id :: id in ids ==> StartKey(id)[|StartKey(id)|-2] != COLON
    ensures forall id, s: byte :: LinkKey(id, s)[|LinkKey(id, s)|-2] == COLON
    ensures forall id, s: byte :: LinkKey(id, s)[|LinkKey(id, s)|-1] == s
  {
    forall id | id in ids ensures StartKey(id)[|StartKey(id)|-2] != COLON {
      assert StartKey(id)[|StartKey(id)|-2] == id[|id|-1];
    }
  }

  lemma LinksAscend(id: Bytes, s: byte, t: byte)
    ensures BytewiseLess(StartKey(id), LinkKey(id, s))
    ensures s < t ==> BytewiseLess(LinkKey(id, s), LinkKey(id, t))
  {
    LessAfterPrefix(StartKey(id), [], [s]);
    assert StartKey(id) + [] == StartKey(id);
    if s < t {
      LessAfterPrefix(StartKey(id), [s], [t]);
    }
  }

  /** The keys that start like those of an id are its own. */
  lemma OwnKeys(ids: set<Bytes>, id: Bytes, key: Bytes)
    requires IdsOk(ids) && id in ids && HasPrefix(key, DocPrefix(id)) && (IsStart(ids, key) || IsLink(ids, key))
    ensures key == StartKey(id) || (|key| > 0 && key == LinkKey(id, key[|key|-1]))
  {
    if o :| o in ids && key == StartKey(o) {
      SameId(ids, id, o, key, []);
    } else {
      var o :| o in ids && key == LinkKey(o, key[|key|-1]);
      SameId(ids, id, o, key, [key[|key|-1]]);
    }
  }

  lemma SameId(ids: set<Bytes>, id: Bytes, o: Bytes, key: Bytes, rest: Bytes)
    requires IdsOk(ids) && id in ids && o in ids && HasPrefix(key, DocPrefix(id)) && key == StartKey(o) + rest && |rest| <= 1
    ensures id == o
  {
    assert |id| <= |o| + 2;
    assert id == key[..|DocPrefix(id)|][2..] == key[2..2+|id|];
    assert o == key[2..2+|o|] && key[2+|o|] == COLON;
    assert forall i :: 0 <= i < |id| ==> id[i] == key[2+i] != COLON;
    assert |id| <= |o|;
    assert o[..|id|] == key[2..2+|id|];
  }

  lemma ViewStays(a: seq<Pair>, b: seq<Pair>, id: Bytes, s: int)
    requires s < 256
    requires forall t: byte :: t as int <= s ==> Get(a, LinkKey(id, t)) == Get(b, LinkKey(id, t))
    ensures View(a, id, s) == View(b, id, s)
    decreases s + 1
  {
    if s >= 0 {
      ViewStays(a, b, id, s - 1);
    }
  }

  /** Snapshots between which a document has no version show the same. */
  lemma {:induction false} ViewOverGap(db: seq<Pair>, id: Bytes, s: int, t: int)
    requires -1 <= s <= t < 256 && forall m: byte :: s < m as int <= t ==> Get(db, LinkKey(id, m)) == None
    ensures View(db, id, t) == View(db, id, s)
    decreases t - s
  {
    if s < t {
      ViewOverGap(db, id, s, t - 1);
    }
  }

  // ----- Reading -----

  /** The keys of the document before position `k` belong to snapshots below `hi`, the others to later ones. */
  ghost predicate Scanned(db: seq<Pair>, id: Bytes, k: nat, hi: nat) {
    && k <= |db| && hi <= 256
    && forall sid: byte :: Get(db, LinkKey(id, sid)).Some? ==>
         (sid as nat < hi <==> Find(db, LinkKey(id, sid)) < k)
  }

  lemma ScanStart(db: seq<Pair>, ids: set<Bytes>, id: Bytes, k: nat)
    requires DbOk(db, ids) && id in ids && k == Find(db, StartKey(id)) < |db|
    ensures Scanned(db, id, k, 0) && Scanned(db, id, k + 1, 0)
  {
    forall sid: byte | Get(db, LinkKey(id, sid)).Some? ensures k + 1 <= Find(db, LinkKey(id, sid)) {
      LinksAscend(id, sid, sid);
      PositionsFollowKeys(db, k, Find(db, LinkKey(id, sid)));
    }
  }

  /** A key no longer than the document's start key is that. */
  lemma ScanShort(db: seq<Pair>, ids: set<Bytes>, id: Bytes, k: nat)
    requires DbOk(db, ids) && id in ids && k < |db| && Find(db, StartKey(id)) <= k
    requires HasPrefix(db[k].key, DocPrefix(id)) && |db[k].key| <= |DocPrefix(id)| + 1
    ensures k == Find(db, StartKey(id))
  {
    OwnKeys(ids, id, db[k].key);
    PositionsFollowKeys(db, k, Find(db, StartKey(id)));
  }

  lemma ScanLink(db: seq<Pair>, ids: set<Bytes>, id: Bytes, k: nat, hi: nat)
    requires DbOk(db, ids) && id in ids && Scanned(db, id, k, hi) && k < |db|
    requires HasPrefix(db[k].key, DocPrefix(id)) && |db[k].key| > |DocPrefix(id)| + 1
    ensures var key := db[k].key; var sid := key[|key|-1];
      && key == LinkKey(id, sid) && hi <= sid as nat
      && Get(db, key) == Some(db[k].value)
      && Scanned(db, id, k + 1, sid as nat + 1)
      && (forall m: byte :: hi <= m as nat < sid as nat ==> Get(db, LinkKey(id, m)) == None)
  {
    var key := db[k].key;
    OwnKeys(ids, id, key);
    var sid := key[|key|-1];
    GetAt(db, k);
    PositionsFollowKeys(db, k, Find(db, key));
    forall m: byte | Get(db, LinkKey(id, m)).Some?
      ensures m < sid ==> Find(db, LinkKey(id, m)) < k
      ensures m > sid ==> Find(db, LinkKey(id, m)) > k
    {
      var i := Find(db, LinkKey(id, m));
      PositionsFollowKeys(db, i, k);
      PositionsFollowKeys(db, k, i);
      LinksAscend(id, m, sid);
      LinksAscend(id, sid, m);
    }
  }

  /** When the keys with the document's prefix are over, there are no more versions. */
  lemma ScanEnd(db: seq<Pair>, ids: set<Bytes>, id: Bytes, k: nat, hi: nat)
    requires DbOk(db, ids) && id in ids && Scanned(db, id, k, hi) && Find(db, StartKey(id)) <= k
    requires k < |db| ==> !HasPrefix(db[k].key, DocPrefix(id))
    ensures forall m: byte :: hi <= m as nat ==> Get(db, LinkKey(id, m)) == None
  {
    forall m: byte | hi <= m as nat ensures Get(db, LinkKey(id, m)) == None {
      if Get(db, LinkKey(id, m)).Some? {
        var a, i := Find(db, StartKey(id)), Find(db, LinkKey(id, m));
        PositionsFollowKeys(db, a, k);
        PositionsFollowKeys(db, k, i);
        assert StartKey(id)[..|DocPrefix(id)|] == DocPrefix(id);
        assert LinkKey(id, m)[..|DocPrefix(id)|] == DocPrefix(id);
        if k < i {
          PrefixesAreTogether(StartKey(id), db[k].key, LinkKey(id, m), DocPrefix(id));
        }
      }
    }
  }

  class QDocCollection {
    var db: seq<Pair>
    /** Names by snapshot id; the last one stands for the current data. */
    var snapshots: seq<string>
    var snapshotId: byte
    ghost const ids: set<Bytes>

    ghost predicate Valid()
      reads this
    {
      && DbOk(db, ids) && LinksWithin(db, ids, snapshotId as int)
      && |snapshots| == snapshotId as int + 1 && snapshots[snapshotId as int] == CURRENT_NAME
    }

    constructor (ghost ids: set<Bytes>)
      requires IdsOk(ids)
      ensures Valid() && this.ids == ids && db == [] && snapshotId == 0
    {
      db, snapshots, snapshotId := [], [CURRENT_NAME], 0;
      this.ids := ids;
    }

    /** What the iterator finds of a document at snapshot `s`: its value; the snapshot of the last version it looked
        at; and whether that is its only version so far. */
    method GetJsonValue(id: Bytes, s: byte) returns (value: Value, lastSeen: byte, isNaked: bool)
      requires DbOk(db, ids) && id in ids
      ensures value == View(db, id, s as int)
      ensures LinksWithin(db, ids, s as int) ==>
                && (isNaked <==> forall t: byte :: t < s ==> Get(db, LinkKey(id, t)) == None)
                && (value != Undefined ==> Get(db, LinkKey(id, lastSeen)).Some? && lastSeen <= s
                                           && forall t: byte :: t > lastSeen ==> Get(db, LinkKey(id, t)) == None)
    {
      hide DbOk, Scanned, IsStart, IsLink, LinkKey, StartKey, DocPrefix, HasPrefix, View;
      value, lastSeen, isNaked := Undefined, 0, true;
      ghost var start := Find(db, StartKey(id));
      var k := Find(db, StartKey(id));
      NoStart(db, ids, id, s);
      if k == |db| {
        return;
      }
      ScanStart(db, ids, id, k);
      ghost var hi: nat := 0;
      var prefix := DocPrefix(id);
      var find, data := false, Empty;
      ViewOfNothing(db, id);
      while k < |db| && HasPrefix(db[k].key, prefix) && !find
        invariant start <= k <= |db| && Scanned(db, id, k, hi) && hi <= 256 && (k == start ==> hi == 0)
        invariant Shown(data) == View(db, id, Top(hi, s)) && (find ==> hi == s as nat + 1)
        invariant hi > 0 ==> lastSeen as nat + 1 == hi && Get(db, LinkKey(id, lastSeen)).Some?
        invariant forall t: byte :: t as nat < hi && t != s && Get(db, LinkKey(id, t)).Some? ==> !isNaked
        invariant LinksWithin(db, ids, s as int) ==> (!isNaked ==> exists t: byte :: t < s && Get(db, LinkKey(id, t)).Some?)
        decreases |db| - k
      {
        var key := db[k].key;
        if |key| > |prefix| + 1 {
          ScanLink(db, ids, id, k, hi);
          lastSeen := key[|key|-1];
          OneMoreVersion(db, id, hi, s, lastSeen);
          if lastSeen < s {
            data := db[k].value;
            isNaked := false;
          } else if lastSeen == s {
            data := db[k].value;
            find := true;
          } else {
            isNaked := false;
          }
          hi := lastSeen as nat + 1;
        } else {
          ScanShort(db, ids, id, k);
        }
        k := k + 1;
      }
      if !find {
        ScanEnd(db, ids, id, k, hi);
        ViewOverGap(db, id, Top(hi, s), s as int);
      }
      value := Shown(data);
    }

    /** Puts the start key and the version of the current snapshot. */
    method PutJsonValue(id: Bytes, value: Value)
      requires Valid() && id in ids
      modifies `db
      ensures Valid() && OnlyVersion(old(db), db, ids, id, snapshotId, Some(value))
    {
      hide StartKey, LinkKey, IsStart, IsLink;
      PutsVersion(db, ids, id, snapshotId, value);
      db := With(db, StartKey(id), Empty);
      db := With(db, LinkKey(id, snapshotId), value);
    }

    /** Fails when the document exists and is not to be overwritten. */
    method Insert(id: Bytes, doc: Value, overwrite: bool) returns (ok: bool)
      requires Valid() && id in ids && doc.Document?
      modifies `db
      ensures Valid() && ok == (overwrite || old(View(db, id, snapshotId as int)) == Undefined)
      ensures if ok then OnlyVersion(old(db), db, ids, id, snapshotId, Some(doc)) else db == old(db)
      ensures ok ==> View(db, id, snapshotId as int) == doc
    {
      hide DbOk, LinksWithin;
      var docOld, _, _ := GetJsonValue(id, snapshotId);
      if docOld != Undefined && !overwrite {
        return false;
      }
      PutJsonValue(id, doc);
      ok := true;
    }

    /** Leaves a tombstone when older versions exist, otherwise deletes the version and the start key. */
    method RemoveById(id: Bytes) returns (ok: bool)
      requires Valid() && id in ids
      modifies `db
      ensures Valid() && ok == old(View(db, id, snapshotId as int)).Document?
      ensures !ok ==> db == old(db)
      ensures ok ==> View(db, id, snapshotId as int) == Undefined
      ensures ok ==> exists v :: OnlyVersion(old(db), db, ids, id, snapshotId, v)
    {
      hide StartKey, LinkKey, IsStart, IsLink, View;
      var value, lastSeen, isNaked := GetJsonValue(id, snapshotId);
      if !value.Document? {
        return false;
      }
      if lastSeen != snapshotId || !isNaked {
        PutsLink(db, ids, id, snapshotId, Undefined);
        db := With(db, LinkKey(id, snapshotId), Undefined);
        ViewOfVersion(db, id, snapshotId, Undefined);
      } else {
        DropsVersion(db, ids, id, snapshotId);
        db := Without(db, LinkKey(id, snapshotId));
        db := Without(db, StartKey(id));
      }
      ok := true;
    }

    /** The place of a name among the snapshots. */
    method GetSnapshotId(name: string) returns (sid: Option<byte>)
      requires Valid()
      ensures sid == None ==> name !in snapshots
      ensures sid.Some? ==> sid.value <= snapshotId && snapshots[sid.value as int] == name
    {
      for i := 0 to |snapshots|
        invariant forall j :: 0 <= j < i ==> snapshots[j] != name
      {
        if snapshots[i] == name {
          return Some(i as byte);
        }
      }
      return None;
    }

    /** Names the current data.  There are fewer than 256 snapshots. */
    method NewSnapshot(name: string) returns (ok: bool)
      requires Valid() && snapshotId < 255
      modifies `snapshots, `snapshotId
      ensures Valid() && ok == (name !in old(snapshots))
      ensures if !ok then snapshots == old(snapshots) && snapshotId == old(snapshotId)
              else && snapshotId == old(snapshotId) + 1
                   && snapshots == old(snapshots)[..old(snapshotId) as int] + [name, CURRENT_NAME]
      ensures ok ==> forall id :: id in ids ==> View(db, id, snapshotId as int) == View(db, id, old(snapshotId) as int)
    {
      hide DbOk;
      var found := GetSnapshotId(name);
      if found.Some? {
        return false;
      }
      snapshots := snapshots[snapshotId as int := name] + [CURRENT_NAME];
      forall id | id in ids ensures View(db, id, snapshotId as int + 1) == View(db, id, snapshotId as int) {
        ViewOverGap(db, id, snapshotId as int, snapshotId as int + 1);
      }
      snapshotId := snapshotId + 1;
      ok := true;
    }

    /** Makes a snapshot's data current again: drops every later version, and start keys left without one. */
    method RevertToSnapshot(name: string) returns (ok: bool)
      requires Valid()
      modifies this
      ensures Valid() && ok == (name in old(snapshots))
      ensures !ok ==> db == old(db) && snapshots == old(snapshots) && snapshotId == old(snapshotId)
      ensures ok ==> && snapshotId <= old(snapshotId) && old(snapshots)[snapshotId as int] == name
                     && snapshots == old(snapshots)[..snapshotId as int] + [CURRENT_NAME]
      ensures ok ==> forall id, s: int :: id in ids && 0 <= s <= snapshotId as int ==> View(db, id, s) == old(View(db, id, s))
    {
      hide DbOk, LinksWithin, View;
      var found := GetSnapshotId(name);
      if found == None {
        return false;
      }
      var target := found.value;
      var names := snapshots;
      var sIds: seq<nat> := [];
      while |names| > target as int + 1
        invariant target as int + 1 <= |names| <= |snapshots| && names == snapshots[..|names|]
        invariant forall m: nat :: m in sIds <==> |names| <= m < |snapshots|
      {
        sIds := sIds + [|names| - 1];
        names := names[..|names|-1];
      }
      names := names[|names|-1 := CURRENT_NAME];
      var deleted := KeysToDelete(target, sIds);
      Prunes(db, ids, target, snapshotId, deleted);
      db := WithoutAll(db, deleted);
      snapshots := names;
      snapshotId := target;
      ok := true;
    }

    /** The keys that a revert deletes, found in one pass over the store. */
    method KeysToDelete(target: byte, sIds: seq<nat>) returns (deleted: set<Bytes>)
      requires Valid() && forall m: nat :: m in sIds <==> target as nat < m <= snapshotId as nat
      ensures Pruned(db, ids, target, deleted, |db|)
    {
      hide DbOk, LinksWithin, StartKey, LinkKey, DocPrefix, Pruned, PendingStart;
      deleted := {};
      var startKey: Bytes, isSingle := [], false;
      ghost var a: nat := 0;
      NothingPruned(db, ids, target);
      var k := 0;
      while k < |db|
        invariant 0 <= k <= |db| && Pruned(db, ids, target, deleted, k)
        invariant startKey != [] ==> PendingStart(db, ids, target, a, k, startKey, isSingle)
        invariant startKey == [] ==> !isSingle
      {
        var key := db[k].key;
        KeyAt(db, ids, snapshotId, k);
        if key[|key|-2] == COLON {
          var sId := key[|key|-1];
          if sId as nat in sIds {
            DeletesLink(db, ids, target, deleted, k, a, startKey, isSingle);
            deleted := deleted + {key};
          } else {
            KeepsLink(db, ids, target, deleted, k, a, startKey, isSingle);
            isSingle := false;
          }
        } else {
          if isSingle && startKey != [] {
            DeletesStart(db, ids, target, deleted, k, a, startKey);
            deleted := deleted + {startKey};
          }
          NextStart(db, ids, target, deleted, k);
          startKey := key;
          isSingle := true;
          a := k;
        }
        k := k + 1;
      }
      if isSingle && startKey != [] {
        DeletesStart(db, ids, target, deleted, k, a, startKey);
        deleted := deleted + {startKey};
      }
    }
  }

  predicate IsLinkKey(key: Bytes) { |key| >= 2 && key[|key|-2] == COLON }

  /** Versions up to the target stay, with their start keys; of the first `k` keys, later versions go. */
  ghost predicate Pruned(db: seq<Pair>, ids: set<Bytes>, target: byte, deleted: set<Bytes>, k: nat) {
    && k <= |db|
    && (forall id, sid: byte :: id in ids && sid <= target ==> LinkKey(id, sid) !in deleted)
    && (forall id, sid: byte :: id in ids && sid <= target && Get(db, LinkKey(id, sid)).Some? ==> StartKey(id) !in deleted)
    && (forall i :: 0 <= i < k && IsLinkKey(db[i].key) && db[i].key[|db[i].key|-1] > target ==> db[i].key in deleted)
  }

  /** The last start key seen is at `a`; `isSingle` says that no version up to the target came since. */
  ghost predicate PendingStart(db: seq<Pair>, ids: set<Bytes>, target: byte, a: nat, k: nat, startKey: Bytes, isSingle: bool) {
    && a < k <= |db| && db[a].key == startKey && IsStart(ids, startKey)
    && (isSingle ==> forall i :: a < i < k ==> IsLinkKey(db[i].key) && db[i].key[|db[i].key|-1] > target)
  }

  lemma NothingPruned(db: seq<Pair>, ids: set<Bytes>, target: byte)
    ensures Pruned(db, ids, target, {}, 0)
  {
  }

  lemma KeyAt(db: seq<Pair>, ids: set<Bytes>, current: byte, k: nat)
    requires DbOk(db, ids) && LinksWithin(db, ids, current as int) && k < |db|
    ensures var key := db[k].key;
      && |key| >= 2
      && (key[|key|-2] == COLON <==> IsLink(ids, key))
      && (key[|key|-2] != COLON <==> IsStart(ids, key))
      && (IsLink(ids, key) ==> key[|key|-1] <= current && Get(db, key).Some?)
  {
    KindOfKey(ids);
    GetAt(db, k);
    var key := db[k].key;
    if o :| o in ids && key == StartKey(o) {
      assert |key| == |o| + 3;
    } else {
      var o :| o in ids && key == LinkKey(o, key[|key|-1]);
      assert |key| == |o| + 4;
    }
  }

  lemma DeletesLink(db: seq<Pair>, ids: set<Bytes>, target: byte, deleted: set<Bytes>, k: nat, a: nat, startKey: Bytes,
                    isSingle: bool)
    requires DbOk(db, ids) && k < |db| && Pruned(db, ids, target, deleted, k)
    requires startKey != [] ==> PendingStart(db, ids, target, a, k, startKey, isSingle)
    requires IsLinkKey(db[k].key) && db[k].key[|db[k].key|-1] > target
    ensures Pruned(db, ids, target, deleted + {db[k].key}, k + 1)
    ensures startKey != [] ==> PendingStart(db, ids, target, a, k + 1, startKey, isSingle)
  {
    KindOfKey(ids);
  }

  lemma KeepsLink(db: seq<Pair>, ids: set<Bytes>, target: byte, deleted: set<Bytes>, k: nat, a: nat, startKey: Bytes,
                  isSingle: bool)
    requires k < |db| && Pruned(db, ids, target, deleted, k)
    requires startKey != [] ==> PendingStart(db, ids, target, a, k, startKey, isSingle)
    requires IsLinkKey(db[k].key) && db[k].key[|db[k].key|-1] <= target
    ensures Pruned(db, ids, target, deleted, k + 1)
    ensures startKey != [] ==> PendingStart(db, ids, target, a, k + 1, startKey, false)
  {
  }

  lemma NextStart(db: seq<Pair>, ids: set<Bytes>, target: byte, deleted: set<Bytes>, k: nat)
    requires k < |db| && Pruned(db, ids, target, deleted, k) && !IsLinkKey(db[k].key) && IsStart(ids, db[k].key)
    ensures Pruned(db, ids, target, deleted, k + 1)
    ensures PendingStart(db, ids, target, k, k + 1, db[k].key, true)
  {
  }

  /** Between a start key and the next one (or the end) lie all versions of the document, so a start key without a
      version that stays has none anywhere. */
  lemma DeletesStart(db: seq<Pair>, ids: set<Bytes>, target: byte, deleted: set<Bytes>, k: nat, a: nat, startKey: Bytes)
    requires DbOk(db, ids) && k <= |db| && Pruned(db, ids, target, deleted, k)
    requires PendingStart(db, ids, target, a, k, startKey, true)
    requires k < |db| ==> IsStart(ids, db[k].key)
    ensures Pruned(db, ids, target, deleted + {startKey}, k)
  {
    KindOfKey(ids);
    var id :| id in ids && startKey == StartKey(id);
    forall sid: byte | sid <= target ensures Get(db, LinkKey(id, sid)) == None {
      if Get(db, LinkKey(id, sid)).Some? {
        NoLaterLink(db, ids, id, sid, a, k);
      }
    }
    forall o, sid: byte | o in ids && sid <= target && Get(db, LinkKey(o, sid)).Some? ensures StartKey(o) != startKey {
      KeysDiffer(o, id, sid, sid);
    }
    assert forall o, sid: byte :: o in ids ==> LinkKey(o, sid) != startKey;
  }

  /** A version lies right behind its start key, before any other. */
  lemma NoLaterLink(db: seq<Pair>, ids: set<Bytes>, id: Bytes, sid: byte, a: nat, k: nat)
    requires DbOk(db, ids) && id in ids && a < k <= |db| && db[a].key == StartKey(id)
    requires Get(db, LinkKey(id, sid)).Some? && (k < |db| ==> IsStart(ids, db[k].key))
    ensures var m := Find(db, LinkKey(id, sid)); a < m < k && db[m].key == LinkKey(id, sid)
  {
    var m := Find(db, LinkKey(id, sid));
    LinksAscend(id, sid, sid);
    PositionsFollowKeys(db, a, m);
    KindOfKey(ids);
    if k < |db| {
      PositionsFollowKeys(db, a, k);
      PositionsFollowKeys(db, k, m);
      assert StartKey(id)[..|DocPrefix(id)|] == DocPrefix(id);
      assert LinkKey(id, sid)[..|DocPrefix(id)|] == DocPrefix(id);
      if k < m {
        PrefixesAreTogether(db[a].key, db[k].key, db[m].key, DocPrefix(id));
        OwnKeys(ids, id, db[k].key);
      }
    }
  }

  /** What is left after a revert. */
  lemma Prunes(db: seq<Pair>, ids: set<Bytes>, target: byte, current: byte, deleted: set<Bytes>)
    requires DbOk(db, ids) && LinksWithin(db, ids, current as int) && Pruned(db, ids, target, deleted, |db|)
    ensures var after := WithoutAll(db, deleted);
      && DbOk(after, ids) && LinksWithin(after, ids, target as int)
      && forall id, s: int :: id in ids && 0 <= s <= target as int ==> View(after, id, s) == View(db, id, s)
  {
    hide View;
    var after := WithoutAll(db, deleted);
    WithoutAllKeys(db, deleted);
    KindOfKey(ids);
    forall i | 0 <= i < |after| ensures IsStart(ids, after[i].key) || IsLink(ids, after[i].key) {
      assert after[i] in db;
      var j :| 0 <= j < |db| && db[j] == after[i];
    }
    forall id, sid: byte | id in ids && sid > target ensures Get(after, LinkKey(id, sid)) == None {
      if Get(db, LinkKey(id, sid)).Some? {
        assert db[Find(db, LinkKey(id, sid))].key in deleted;
      }
    }
    forall id, s: int | id in ids && 0 <= s <= target as int ensures View(after, id, s) == View(db, id, s) {
      ViewStays(after, db, id, s);
    }
  }

  /** Of all versions only that of one document at one snapshot may have changed. */
  ghost predicate OnlyVersion(before: seq<Pair>, after: seq<Pair>, ids: set<Bytes>, id: Bytes, s: byte, v: Option<Value>) {
    && Get(after, LinkKey(id, s)) == v
    && forall o, t: byte :: o in ids && (o != id || t != s) ==> Get(after, LinkKey(o, t)) == Get(before, LinkKey(o, t))
  }

  /** The last snapshot up to `s` that is scanned when those below `hi` are. */
  function Top(hi: nat, s: byte): (t: int)
    ensures -1 <= t <= s as int
  {
    if hi <= s as nat then hi - 1 else s as int
  }

  lemma ViewOfNothing(db: seq<Pair>, id: Bytes)
    ensures View(db, id, -1) == Undefined
  {
  }

  /** The next version of a document, after a gap. */
  lemma OneMoreVersion(db: seq<Pair>, id: Bytes, hi: nat, s: byte, sid: byte)
    requires hi <= sid as nat && Get(db, LinkKey(id, sid)).Some?
    requires forall m: byte :: hi <= m as nat < sid as nat ==> Get(db, LinkKey(id, m)) == None
    ensures View(db, id, Top(sid as nat + 1, s))
         == if sid <= s then Shown(Get(db, LinkKey(id, sid)).value) else View(db, id, Top(hi, s))
  {
    if sid > s {
      ViewOverGap(db, id, Top(hi, s), s as int);
    }
  }

  lemma NoStart(db: seq<Pair>, ids: set<Bytes>, id: Bytes, s: byte)
    requires DbOk(db, ids) && id in ids
    ensures Get(db, StartKey(id)) == None ==> View(db, id, s as int) == Undefined
    ensures Get(db, StartKey(id)) == None ==> forall t: byte :: Get(db, LinkKey(id, t)) == None
  {
    if Get(db, StartKey(id)) == None {
      ViewOverGap(db, id, -1, s as int);
    }
  }

  lemma ViewOfVersion(db: seq<Pair>, id: Bytes, s: byte, v: Value)
    requires Get(db, LinkKey(id, s)) == Some(v)
    ensures View(db, id, s as int) == Shown(v)
  {
  }

  lemma PutsStart(db: seq<Pair>, ids: set<Bytes>, id: Bytes, s: byte)
    requires DbOk(db, ids) && LinksWithin(db, ids, s as int) && id in ids
    ensures var after := With(db, StartKey(id), Empty);
      && DbOk(after, ids) && LinksWithin(after, ids, s as int) && Get(after, StartKey(id)).Some?
      && forall o, t: byte :: Get(after, LinkKey(o, t)) == Get(db, LinkKey(o, t))
  {
    WithKeys(db, StartKey(id), Empty);
    NoMixUp(ids, id, s);
    KeysStayOk(db, With(db, StartKey(id), Empty), ids, id, s);
  }

  lemma PutsLink(db: seq<Pair>, ids: set<Bytes>, id: Bytes, s: byte, value: Value)
    requires DbOk(db, ids) && LinksWithin(db, ids, s as int) && id in ids
    requires Get(db, StartKey(id)).Some? || exists t: byte :: Get(db, LinkKey(id, t)).Some?
    ensures var after := With(db, LinkKey(id, s), value);
      DbOk(after, ids) && LinksWithin(after, ids, s as int) && OnlyVersion(db, after, ids, id, s, Some(value))
  {
    WithKeys(db, LinkKey(id, s), value);
    NoMixUp(ids, id, s);
    KeysStayOk(db, With(db, LinkKey(id, s), value), ids, id, s);
  }

  lemma PutsVersion(db: seq<Pair>, ids: set<Bytes>, id: Bytes, s: byte, value: Value)
    requires DbOk(db, ids) && LinksWithin(db, ids, s as int) && id in ids
    ensures var after := With(With(db, StartKey(id), Empty), LinkKey(id, s), value);
      DbOk(after, ids) && LinksWithin(after, ids, s as int) && OnlyVersion(db, after, ids, id, s, Some(value))
  {
    hide DbOk, LinksWithin, StartKey, LinkKey;
    PutsStart(db, ids, id, s);
    PutsLink(With(db, StartKey(id), Empty), ids, id, s, value);
  }

  /** The only version of a document goes, and the start key with it. */
  lemma DropsVersion(db: seq<Pair>, ids: set<Bytes>, id: Bytes, s: byte)
    requires DbOk(db, ids) && LinksWithin(db, ids, s as int) && id in ids
    requires forall t: byte :: t < s ==> Get(db, LinkKey(id, t)) == None
    ensures var after := Without(Without(db, LinkKey(id, s)), StartKey(id));
      && DbOk(after, ids) && LinksWithin(after, ids, s as int) && OnlyVersion(db, after, ids, id, s, None)
      && View(after, id, s as int) == Undefined
  {
    var mid := Without(db, LinkKey(id, s));
    var after := Without(mid, StartKey(id));
    WithoutKeys(db, LinkKey(id, s));
    WithoutKeys(mid, StartKey(id));
    NoMixUp(ids, id, s);
    KeysStayOk(db, after, ids, id, s);
    forall t: byte ensures Get(after, LinkKey(id, t)) == None {
    }
    ViewOverGap(after, id, -1, s as int);
  }

  lemma KeysStayOk(db: seq<Pair>, after: seq<Pair>, ids: set<Bytes>, id: Bytes, s: byte)
    requires DbOk(db, ids) && id in ids
    requires forall p :: p in after ==> p.key == LinkKey(id, s) || p.key == StartKey(id) || p in db
    ensures forall i :: 0 <= i < |after| ==> IsStart(ids, after[i].key) || IsLink(ids, after[i].key)
  {
    KindOfKey(ids);
    forall i | 0 <= i < |after| ensures IsStart(ids, after[i].key) || IsLink(ids, after[i].key) {
      assert after[i] in after;
      if after[i] in db {
        var j :| 0 <= j < |db| && db[j] == after[i];
      }
    }
  }

  /** The keys of one document's version and start are no others'. */
  lemma NoMixUp(ids: set<Bytes>, id: Bytes, s: byte)
    requires IdsOk(ids) && id in ids
    ensures forall o, t: byte :: LinkKey(o, t) == LinkKey(id, s) ==> o == id && t == s
    ensures forall o :: StartKey(o) == StartKey(id) ==> o == id
    ensures forall o, t: byte :: LinkKey(o, t) != StartKey(id)
    ensures forall o :: o in ids ==> StartKey(o) != LinkKey(id, s)
  {
    KindOfKey(ids);
    forall o, t: byte ensures LinkKey(o, t) == LinkKey(id, s) ==> o == id && t == s {
      KeysDiffer(o, id, t, s);
    }
    forall o ensures StartKey(o) == StartKey(id) ==> o == id {
      KeysDiffer(o, id, s, s);
    }
  }

  // ----- Runs -----

  /** A collection as a value. */
  datatype State = State(db: seq<Pair>, snapshots: seq<string>, current: byte)

  ghost predicate StateOk(s: State, ids: set<Bytes>) {
    && DbOk(s.db, ids) && LinksWithin(s.db, ids, s.current as int)
    && |s.snapshots| == s.current as int + 1 && s.snapshots[s.current as int] == CURRENT_NAME
  }

  /** Insert or RemoveById: one version of the current snapshot changes. */
  ghost predicate WriteStep(s: State, t: State, ids: set<Bytes>) {
    && t.snapshots == s.snapshots && t.current == s.current
    && exists id, v :: id in ids && OnlyVersion(s.db, t.db, ids, id, s.current, v)
  }

  ghost predicate SnapshotStep(s: State, t: State, name: string) {
    && s.current < 255 && |s.snapshots| == s.current as int + 1 && name !in s.snapshots
    && t == State(s.db, s.snapshots[..s.current as int] + [name, CURRENT_NAME], s.current + 1)
  }

  /** Reverting drops versions after the target and changes no other. */
  ghost predicate RevertStep(s: State, t: State, ids: set<Bytes>, name: string) {
    && t.current <= s.current && |s.snapshots| == s.current as int + 1 && s.snapshots[t.current as int] == name
    && t.snapshots == s.snapshots[..t.current as int] + [CURRENT_NAME]
    && forall id, m: int :: id in ids && 0 <= m <= t.current as int ==> View(t.db, id, m) == View(s.db, id, m)
  }

  /** A step that leaves snapshot `j` a named one: no revert to it or to an earlier one. */
  ghost predicate Step(s: State, t: State, ids: set<Bytes>, j: nat) {
    && StateOk(t, ids)
    && (WriteStep(s, t, ids) || (exists name :: SnapshotStep(s, t, name))
        || (j < t.current as nat && exists name :: RevertStep(s, t, ids, name)))
  }

  /** Versions of earlier snapshots stay when the current one is written. */
  lemma WriteKeepsSnapshots(s: State, t: State, ids: set<Bytes>, o: Bytes, j: int)
    requires WriteStep(s, t, ids) && o in ids && j < s.current as int
    ensures View(t.db, o, j) == View(s.db, o, j)
  {
    var id, v :| id in ids && OnlyVersion(s.db, t.db, ids, id, s.current, v);
    ViewStays(t.db, s.db, o, j);
  }

  ghost predicate IsRun(run: seq<State>, ids: set<Bytes>, j: nat) {
    && run != [] && StateOk(run[0], ids) && j < run[0].current as nat
    && forall i :: 0 <= i < |run| - 1 ==> Step(run[i], run[i+1], ids, j)
  }

  /** No run of inserts, removals, new snapshots and reverts to later snapshots changes the name of a snapshot or any
      document read at it. */
  lemma {:induction false} SnapshotIsIsolated(run: seq<State>, ids: set<Bytes>, j: nat, k: nat, id: Bytes)
    requires IsRun(run, ids, j) && k < |run| && id in ids
    ensures StateOk(run[k], ids) && j < run[k].current as nat
    ensures run[k].snapshots[j] == run[0].snapshots[j]
    ensures View(run[k].db, id, j) == View(run[0].db, id, j)
  {
    if k > 0 {
      SnapshotIsIsolated(run, ids, j, k - 1, id);
      var s, t := run[k-1], run[k-1+1];
      assert Step(s, t, ids, j);
      if WriteStep(s, t, ids) {
        WriteKeepsSnapshots(s, t, ids, id, j);
      }
    }
  }

  /** Reverting to a snapshot after any such run shows the documents as they were when it was taken. */
  lemma RevertRestores(run: seq<State>, ids: set<Bytes>, j: nat, k: nat, t: State, name: string, id: Bytes)
    requires IsRun(run, ids, j) && k < |run| && id in ids
    requires RevertStep(run[k], t, ids, name) && t.current as nat == j && name == run[0].snapshots[j]
    ensures View(t.db, id, t.current as int) == View(run[0].db, id, j)
    ensures forall m: int :: 0 <= m < j ==> View(t.db, id, m) == View(run[k].db, id, m)
  {
    SnapshotIsIsolated(run, ids, j, k, id);
  }
}
