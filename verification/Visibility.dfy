/** What a read at a sequence number means, for any collection of internal entries. */
module Visibility {
  import opened Keys

  predicate Readable(e: Entry, u: UserKey, s: Sequence) {
    e.key.Parses() && e.key.user == u && e.key.sequence <= s
  }

  /** `e` is the newest entry for `u` at or below `s`. */
  ghost predicate Newest(data: set<Entry>, u: UserKey, s: Sequence, e: Entry) {
    && e in data && Readable(e, u, s)
    && forall o :: o in data && Readable(o, u, s) ==> o.key.sequence <= e.key.sequence
  }

  /** No two well-formed entries carry the same user key and sequence number. */
  ghost predicate OneEntryPerSequence(data: set<Entry>) {
    forall a, b :: (a in data && b in data && a.key.Parses() && b.key.Parses()
                    && a.key.user == b.key.user && a.key.sequence == b.key.sequence) ==> a == b
  }

  /** The value a read returns; None when the newest entry is a deletion or there is no entry. */
  ghost function Lookup(data: set<Entry>, u: UserKey, s: Sequence): Option<Bytes> {
    if exists e :: Newest(data, u, s, e) && e.key.kind == TYPE_VALUE
    then var e :| Newest(data, u, s, e) && e.key.kind == TYPE_VALUE; Some(e.value)
    else None
  }

  function Outcome(e: Entry): Option<Bytes> {
    if e.key.kind == TYPE_VALUE then Some(e.value) else None
  }

  lemma LookupIsOutcome(data: set<Entry>, u: UserKey, s: Sequence, e: Entry)
    requires OneEntryPerSequence(data) && Newest(data, u, s, e)
    ensures Lookup(data, u, s) == Outcome(e)
  {
    forall o | Newest(data, u, s, o) ensures o == e {
      assert o.key.sequence == e.key.sequence;
    }
  }

  lemma LookupOfNothing(data: set<Entry>, u: UserKey, s: Sequence)
    requires forall e :: e in data ==> !Readable(e, u, s)
    ensures Lookup(data, u, s) == None
  {
  }

  lemma {:induction false} NewestExists(data: set<Entry>, u: UserKey, s: Sequence, e: Entry) returns (n: Entry)
    requires e in data && Readable(e, u, s)
    ensures Newest(data, u, s, n)
    decreases |data|
  {
    if o :| o in data && Readable(o, u, s) && o.key.sequence > e.key.sequence {
      var rest := data - {e};
      assert |rest| < |data|;
      n := NewestExists(rest, u, s, o);
      forall x | x in data && Readable(x, u, s) ensures x.key.sequence <= n.key.sequence {
        assert x in rest || x == e;
        assert o in rest;
      }
    } else {
      n := e;
    }
  }

  /** Two collections answer alike when they agree on the entries readable at `u`, `s`. */
  lemma SameReadableSameLookup(a: set<Entry>, b: set<Entry>, u: UserKey, s: Sequence)
    requires OneEntryPerSequence(a) && OneEntryPerSequence(b)
    requires forall e :: Readable(e, u, s) ==> (e in a <==> e in b)
    ensures Lookup(a, u, s) == Lookup(b, u, s)
  {
    if e :| e in a && Readable(e, u, s) {
      var n := NewestExists(a, u, s, e);
      assert Newest(b, u, s, n);
      LookupIsOutcome(a, u, s, n);
      LookupIsOutcome(b, u, s, n);
    }
  }
}
