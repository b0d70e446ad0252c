/** qdocdb's in-memory key-value store (qdockvmap.cpp): an ordered map whose iterators seek an exact key. */
module QDocKVMaps {
  import opened Keys
  import opened Comparator

  /** A stored value: an empty string, a marshalled "undefined", or a marshalled document. */
  datatype Value = Empty | Undefined | Document(data: Bytes)

  datatype Pair = Pair(key: Bytes, value: Value)

  /** The map in the order of its keys. */
  predicate KeysSorted(db: seq<Pair>) {
    forall i, j :: 0 <= i < j < |db| ==> BytewiseLess(db[i].key, db[j].key)
  }

  function Get(db: seq<Pair>, key: Bytes): Option<Value> {
    if db == [] then None else if db[0].key == key then Some(db[0].value) else Get(db[1..], key)
  }

  /** QMap::find: the position of the key, or the end. */
  function Find(db: seq<Pair>, key: Bytes): (i: nat)
    ensures i <= |db| && (i < |db| ==> db[i].key == key && Get(db, key) == Some(db[i].value))
    ensures i == |db| ==> Get(db, key) == None
  {
    if db == [] || db[0].key == key then 0 else 1 + Find(db[1..], key)
  }

  function With(db: seq<Pair>, key: Bytes, value: Value): seq<Pair> {
    if db == [] || BytewiseLess(key, db[0].key) then [Pair(key, value)] + db
    else if db[0].key == key then [Pair(key, value)] + db[1..]
    else [db[0]] + With(db[1..], key, value)
  }

  function Without(db: seq<Pair>, key: Bytes): seq<Pair> {
    if db == [] then [] else if db[0].key == key then db[1..] else [db[0]] + Without(db[1..], key)
  }

  lemma LessFacts(a: Bytes, b: Bytes, c: Bytes)
    ensures !BytewiseLess(a, a)
    ensures BytewiseLess(a, b) && BytewiseLess(b, c) ==> BytewiseLess(a, c)
    ensures BytewiseLess(a, b) || a == b || BytewiseLess(b, a)
  {
    hide BytewiseLess, BytewiseRank;
    RankKeepsOrder(a, b);
    RankKeepsOrder(b, c);
    RankKeepsOrder(a, c);
    RankKeepsOrder(b, a);
    RankKeepsOrder(a, a);
  }

  lemma {:induction false} GetAt(db: seq<Pair>, i: nat)
    requires KeysSorted(db) && i < |db|
    ensures Get(db, db[i].key) == Some(db[i].value)
  {
    hide BytewiseLess;
    if i > 0 {
      LessFacts(db[0].key, db[i].key, db[i].key);
      GetAt(db[1..], i - 1);
    }
  }

  lemma {:induction false} SomewhereIsFound(db: seq<Pair>, i: nat)
    requires i < |db|
    ensures Get(db, db[i].key).Some?
  {
    if i > 0 {
      SomewhereIsFound(db[1..], i - 1);
    }
  }

  lemma {:induction false} WithKeys(db: seq<Pair>, key: Bytes, value: Value)
    requires KeysSorted(db)
    ensures KeysSorted(With(db, key, value))
    ensures forall p :: p in With(db, key, value) ==> p == Pair(key, value) || p in db
    ensures forall k :: Get(With(db, key, value), k) == if k == key then Some(value) else Get(db, k)
  {
    hide BytewiseLess;
    if db != [] {
      if BytewiseLess(key, db[0].key) {
        forall i | 0 <= i < |db| ensures BytewiseLess(key, db[i].key) {
          LessFacts(key, db[0].key, db[i].key);
        }
        NotAbove(db, key);
      } else if db[0].key == key {
      } else {
        LessFacts(key, db[0].key, key);
        WithKeys(db[1..], key, value);
        var tail := With(db[1..], key, value);
        forall i | 0 <= i < |tail| ensures BytewiseLess(db[0].key, tail[i].key) {
          assert tail[i] in tail;
        }
      }
    }
  }

  lemma {:induction false} NotAbove(db: seq<Pair>, key: Bytes)
    requires forall i :: 0 <= i < |db| ==> BytewiseLess(key, db[i].key)
    ensures Get(db, key) == None
  {
    hide BytewiseLess;
    if db != [] {
      LessFacts(key, key, key);
      NotAbove(db[1..], key);
    }
  }

  lemma {:induction false} WithoutKeys(db: seq<Pair>, key: Bytes)
    requires KeysSorted(db)
    ensures KeysSorted(Without(db, key))
    ensures forall p :: p in Without(db, key) ==> p in db
    ensures forall k :: Get(Without(db, key), k) == if k == key then None else Get(db, k)
  {
    hide BytewiseLess;
    if db != [] {
      if db[0].key == key {
        NotAbove(db[1..], key);
      } else {
        WithoutKeys(db[1..], key);
        var tail := Without(db[1..], key);
        forall i | 0 <= i < |tail| ensures BytewiseLess(db[0].key, tail[i].key) {
          assert tail[i] in db[1..];
        }
      }
    }
  }

  /** Positions in the map follow the keys. */
  lemma PositionsFollowKeys(db: seq<Pair>, i: nat, j: nat)
    requires KeysSorted(db) && i < |db| && j < |db|
    ensures BytewiseLess(db[i].key, db[j].key) <==> i < j
    ensures db[i].key == db[j].key <==> i == j
  {
    hide BytewiseLess;
    LessFacts(db[i].key, db[j].key, db[i].key);
    LessFacts(db[i].key, db[i].key, db[i].key);
  }

  predicate HasPrefix(key: Bytes, prefix: Bytes) { |prefix| <= |key| && key[..|prefix|] == prefix }

  /** Keys with a common prefix are neighbours. */
  lemma {:induction false} PrefixesAreTogether(a: Bytes, b: Bytes, c: Bytes, prefix: Bytes)
    requires HasPrefix(a, prefix) && HasPrefix(c, prefix) && BytewiseLess(a, b) && BytewiseLess(b, c)
    ensures HasPrefix(b, prefix)
  {
    if prefix != [] {
      assert a[0] == prefix[0] && c[0] == prefix[0];
      assert a[1..][..|prefix|-1] == a[..|prefix|][1..] == prefix[1..];
      assert c[1..][..|prefix|-1] == c[..|prefix|][1..] == prefix[1..];
      PrefixesAreTogether(a[1..], b[1..], c[1..], prefix[1..]);
      assert b == [b[0]] + b[1..];
      assert b[..|prefix|] == [b[0]] + b[1..][..|prefix|-1];
    }
  }

  /** Deleting a set of keys in one transaction. */
  function WithoutAll(db: seq<Pair>, keys: set<Bytes>): seq<Pair> {
    if db == [] then [] else (if db[0].key in keys then [] else [db[0]]) + WithoutAll(db[1..], keys)
  }

  lemma {:induction false} WithoutAllKeys(db: seq<Pair>, keys: set<Bytes>)
    requires KeysSorted(db)
    ensures KeysSorted(WithoutAll(db, keys))
    ensures forall p :: p in WithoutAll(db, keys) ==> p in db
    ensures forall k :: Get(WithoutAll(db, keys), k) == if k in keys then None else Get(db, k)
  {
    hide BytewiseLess;
    if db != [] {
      WithoutAllKeys(db[1..], keys);
      var tail := WithoutAll(db[1..], keys);
      forall i | 0 <= i < |tail| ensures BytewiseLess(db[0].key, tail[i].key) {
        assert tail[i] in db[1..];
      }
      forall k ensures Get(WithoutAll(db, keys), k) == if k in keys then None else Get(db, k) {
        assert Get(tail, k) == if k in keys then None else Get(db[1..], k);
        assert if db[0].key in keys then WithoutAll(db, keys) == tail else WithoutAll(db, keys)[1..] == tail;
      }
    }
  }
}
